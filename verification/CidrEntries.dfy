/** Parsing and canonicalising CIDR entries. Printing and parsing one address belong to the standard
    library and are inputs. */
module CidrEntries {
  import opened Basics
  import opened Text
  import opened CidrRanges
  import opened Bits
  import opened FirstSeen

  datatype AddressText = AddressText(show: IpAddr -> string, parse: string -> Option<IpAddr>)

  /** An address text contains no `/` and no white space. */
  predicate PlainText(s: string) {
    s != [] && '/' !in s && NoWhitespace(s)
  }

  /** Parsing inverts printing, and only valid addresses are parsed. */
  ghost predicate AddressTextOk(text: AddressText) {
    && (forall a :: Valid(a) ==> text.parse(text.show(a)) == Some(a) && PlainText(text.show(a)))
    && (forall s :: text.parse(s).Some? ==> Valid(text.parse(s).value))
  }

  datatype CidrEntry = CidrEntry(cidr: string, range: CidrRange)

  datatype CidrError =
    | EmptyEntry(value: string)
    | NoPrefix(value: string)
    | MissingPart(value: string)
    | BadAddress(value: string)
    | BadPrefix(value: string)
    | PrefixTooLong(family: nat, prefix: nat)

  datatype Result<T> = Ok(value: T) | Err(error: CidrError)

  // ----- Decimal text -----

  predicate IsDigit(c: char) { '0' <= c <= '9' }

  function DigitOf(c: char): nat
    requires IsDigit(c)
  {
    c as int - '0' as int
  }

  predicate AllDigits(s: string) { forall i :: 0 <= i < |s| ==> IsDigit(s[i]) }

  function DigitsValue(s: string): nat
    requires AllDigits(s)
  {
    if s == [] then 0 else 10 * DigitsValue(s[..|s| - 1]) + DigitOf(s[|s| - 1])
  }

  /** `u8::from_str`: an optional plus sign and at least one digit. */
  function ParseU8(s: string): Option<nat> {
    var digits := if s != [] && s[0] == '+' then s[1..] else s;
    if digits == [] || !AllDigits(digits) then None
    else if DigitsValue(digits) > 255 then None
    else Some(DigitsValue(digits))
  }

  function PrintNat(n: nat): (s: string)
    ensures s != [] && AllDigits(s)
  {
    if n < 10 then [(n + '0' as int) as char] else PrintNat(n / 10) + [(n % 10 + '0' as int) as char]
  }

  lemma {:induction false} PrintedValue(n: nat)
    ensures DigitsValue(PrintNat(n)) == n
  {
    if n >= 10 {
      PrintedValue(n / 10);
      assert PrintNat(n)[..|PrintNat(n)| - 1] == PrintNat(n / 10);
    } else {
      assert DigitsValue([]) == 0;
    }
  }

  /** A printed number reads back when it fits in a byte. */
  lemma ParsesNat(n: nat)
    ensures ParseU8(PrintNat(n)) == if n <= 255 then Some(n) else None
  {
    PrintedValue(n);
  }

  // ----- One entry -----

  /** `split_once('/')` */
  function SplitOnce(s: string): Option<(string, string)> {
    if s == [] then None
    else if s[0] == '/' then Some(([], s[1..]))
    else
      var rest := SplitOnce(s[1..]);
      if rest.None? then None else Some(([s[0]] + rest.value.0, rest.value.1))
  }

  function CidrText(text: AddressText, network: IpAddr, prefix: nat): string {
    text.show(network) + "/" + PrintNat(prefix)
  }

  function EntryFor(text: AddressText, a: IpAddr, prefix: nat): CidrEntry
    requires prefix <= Width(a)
  {
    var range := RangeOf(a, prefix);
    CidrEntry(CidrText(text, range.start, prefix), range)
  }

  /** `parse_cidr_entry` */
  function ParseCidrEntry(text: AddressText, entry: string): Result<CidrEntry> {
    var trimmed := Trim(entry);
    if trimmed == [] then Err(EmptyEntry(entry)) else
      var parts := SplitOnce(trimmed);
      if parts.None? then Err(NoPrefix(trimmed)) else
        var network, prefix := Trim(parts.value.0), Trim(parts.value.1);
        if network == [] || prefix == [] then Err(MissingPart(trimmed)) else
          var ip := text.parse(network);
          if ip.None? then Err(BadAddress(network)) else
            var length := ParseU8(prefix);
            if length.None? then Err(BadPrefix(prefix))
            else if length.value > Width(ip.value) then Err(PrefixTooLong(Width(ip.value), length.value))
            else Ok(EntryFor(text, ip.value, length.value))
  }

  /** A parsed entry is the block of some address and prefix length. */
  lemma ParsedIsBlock(text: AddressText, entry: string) returns (a: IpAddr, prefix: nat)
    requires AddressTextOk(text) && ParseCidrEntry(text, entry).Ok?
    ensures Valid(a) && prefix <= Width(a) && prefix <= 255
    ensures ParseCidrEntry(text, entry).value == EntryFor(text, a, prefix)
  {
    var parts := SplitOnce(Trim(entry)).value;
    a := text.parse(Trim(parts.0)).value;
    prefix := ParseU8(Trim(parts.1)).value;
  }

  // ----- Rejections -----

  lemma {:induction false} NothingToSplit(s: string)
    requires '/' !in s
    ensures SplitOnce(s).None?
  {
    if s != [] { NothingToSplit(s[1..]); }
  }

  /** A text without a slash is rejected, as an empty one when it is blank. */
  lemma NoSlash(text: AddressText, before: string, s: string, after: string)
    requires AllWhitespace(before) && AllWhitespace(after) && Tight(s) && '/' !in s
    ensures ParseCidrEntry(text, before + s + after) ==
      if s == "" then Err(EmptyEntry(before + s + after)) else Err(NoPrefix(s))
  {
    TrimPadded(before, s, after);
    NothingToSplit(s);
  }

  /** Up to the first slash is the network, the rest the length, each without the white space around it.
      The first that is missing or no such thing decides the error. */
  lemma WithSlash(text: AddressText, pad: string, network: string, after: string, before: string, prefix: string,
                  pad': string)
    requires AllWhitespace(pad) && AllWhitespace(after) && AllWhitespace(before) && AllWhitespace(pad')
    requires Tight(network) && '/' !in network && (network == "" ==> after == "")
    requires Tight(prefix) && (prefix == "" ==> before == "")
    ensures var s := network + after + "/" + before + prefix;
      ParseCidrEntry(text, pad + s + pad') ==
        if network == "" || prefix == "" then Err(MissingPart(s))
        else if text.parse(network).None? then Err(BadAddress(network))
        else if ParseU8(prefix).None? then Err(BadPrefix(prefix))
        else
          var a, n := text.parse(network).value, ParseU8(prefix).value;
          var longest := if a.V4? then 32 else 128;
          if n > longest then Err(PrefixTooLong(longest, n)) else Ok(EntryFor(text, a, n))
  {
    var s := network + after + "/" + before + prefix;
    TrimPadded(pad, s, pad');
    SlashTaken(network, after, before, prefix);
    assert s != [];
    hide Trim, SplitOnce, ParseU8, EntryFor, AllWhitespace;
  }

  lemma SlashTaken(network: string, after: string, before: string, prefix: string)
    requires AllWhitespace(after) && AllWhitespace(before)
    requires Tight(network) && '/' !in network && Tight(prefix)
    ensures SplitOnce(network + after + "/" + before + prefix) == Some((network + after, before + prefix))
    ensures Trim(network + after) == network && Trim(before + prefix) == prefix
  {
    hide *;
    var front, back := network + after, before + prefix;
    SlashOutside(network, after);
    PartsTrimmed(network, after, before, prefix);
    SplitJoined(front, back);
    assert network + after + "/" + before + prefix == front + "/" + back;
  }

  lemma SlashOutside(network: string, after: string)
    requires '/' !in network && AllWhitespace(after)
    ensures '/' !in network + after
  {
    assert !IsWhitespace('/');
  }

  lemma PartsTrimmed(network: string, after: string, before: string, prefix: string)
    requires AllWhitespace(after) && AllWhitespace(before) && Tight(network) && Tight(prefix)
    ensures Trim(network + after) == network && Trim(before + prefix) == prefix
  {
    hide Trim, IsWhitespace, Tight;
    TrimPadded("", network, after);
    TrimPadded(before, prefix, "");
    assert "" + network + after == network + after && before + prefix + "" == before + prefix;
  }

  /** An IPv4 address with a length is accepted if and only if the length is at most 32. */
  lemma TextV4(text: AddressText, x: nat, n: nat)
    requires AddressTextOk(text) && x < 0x1_0000_0000
    ensures var r := ParseCidrEntry(text, text.show(V4(x)) + "/" + PrintNat(n));
      if n <= 32 then
        var size := Pow2(32 - n);
        var first := RoundedDown(x, size);
        r == Ok(CidrEntry(text.show(V4(first)) + "/" + PrintNat(n), CidrRange(V4(first), V4(first + size - 1))))
      else r == Err(if n <= 255 then PrefixTooLong(32, n) else BadPrefix(PrintNat(n)))
  {
    WordSizes();
    if n <= 32 { BlockV4(x, n, V4(x)); }
    hide Pow2, RangeOf, ParseCidrEntry, AddressTextOk, PrintNat;
    TextParses(text, V4(x), n);
  }

  /** An IPv6 address with a length is accepted if and only if the length is at most 128. */
  lemma TextV6(text: AddressText, x: nat, n: nat)
    requires AddressTextOk(text) && x < 0x1_0000_0000_0000_0000_0000_0000_0000_0000
    ensures var r := ParseCidrEntry(text, text.show(V6(x)) + "/" + PrintNat(n));
      if n <= 128 then
        var size := Pow2(128 - n);
        var first := RoundedDown(x, size);
        r == Ok(CidrEntry(text.show(V6(first)) + "/" + PrintNat(n), CidrRange(V6(first), V6(first + size - 1))))
      else r == Err(if n <= 255 then PrefixTooLong(128, n) else BadPrefix(PrintNat(n)))
  {
    WordSizes();
    if n <= 128 { BlockV6(x, n, V6(x)); }
    hide Pow2, RangeOf, ParseCidrEntry, AddressTextOk, PrintNat;
    TextParses(text, V6(x), n);
  }

  /** Lengths are printed in decimal. */
  lemma PrintedTexts()
    ensures PrintNat(0) == "0" && PrintNat(24) == "24" && PrintNat(128) == "128"
  {
  }

  /** Lengths are decimal, a plus sign or leading zeros allowed. */
  lemma LengthTexts()
    ensures ParseU8("024") == ParseU8("+024") == Some(24) && ParseU8("255") == Some(255)
    ensures ParseU8("256").None? && ParseU8("").None? && ParseU8("+").None?
    ensures ParseU8("-1").None? && ParseU8("1a").None?
  {
    Digits3("024");
    Digits3("255");
    Digits3("256");
    assert "+024"[1..] == "024";
    NotNumeric("-1", 0);
    NotNumeric("1a", 1);
    hide DigitsValue;
  }

  lemma NotNumeric(s: string, i: nat)
    requires i < |s| && s[0] != '+' && !IsDigit(s[i])
    ensures ParseU8(s).None?
  {
    assert !AllDigits(s);
  }

  lemma Digits3(s: string)
    requires |s| == 3 && AllDigits(s)
    ensures DigitsValue(s) == 100 * DigitOf(s[0]) + 10 * DigitOf(s[1]) + DigitOf(s[2])
  {
    assert DigitsValue(s[..2]) == 10 * DigitsValue(s[..1]) + DigitOf(s[1]) by { assert s[..2][..1] == s[..1]; }
    assert DigitsValue(s[..1]) == DigitOf(s[0]) by { assert s[..1][..0] == [] && DigitsValue([]) == 0; }
  }

  // ----- Canonical text -----

  lemma {:induction false} SplitJoined(front: string, back: string)
    requires '/' !in front
    ensures SplitOnce(front + "/" + back) == Some((front, back))
  {
    if front == [] {
      assert front + "/" + back == "/" + back;
    } else {
      assert (front + "/" + back)[1..] == front[1..] + "/" + back;
      SplitJoined(front[1..], back);
      assert front == [front[0]] + front[1..];
    }
  }

  lemma TextDetermines(text: AddressText, a: IpAddr, p: nat, b: IpAddr, q: nat)
    requires AddressTextOk(text) && Valid(a) && Valid(b)
    ensures CidrText(text, a, p) == CidrText(text, b, q) <==> a == b && p == q
  {
    if CidrText(text, a, p) == CidrText(text, b, q) {
      SplitJoined(text.show(a), PrintNat(p));
      SplitJoined(text.show(b), PrintNat(q));
      PrintedValue(p);
      PrintedValue(q);
      assert text.parse(text.show(a)) == text.parse(text.show(b));
    }
  }

  /** Two entries have the same canonical text exactly when they denote the same range. */
  lemma SameTextExactly(text: AddressText, entry: string, other: string)
    requires AddressTextOk(text) && ParseCidrEntry(text, entry).Ok? && ParseCidrEntry(text, other).Ok?
    ensures var x, y := ParseCidrEntry(text, entry).value, ParseCidrEntry(text, other).value;
      x.cidr == y.cidr <==> x.range == y.range
  {
    var a, p := ParsedIsBlock(text, entry);
    var b, q := ParsedIsBlock(text, other);
    hide AddressTextOk, ParseCidrEntry, RangeOf, CidrText;
    RangeSize(a, p);
    RangeSize(b, q);
    RangeDetermines(a, p, b, q);
    TextDetermines(text, RangeOf(a, p).start, p, RangeOf(b, q).start, q);
  }

  lemma DigitsPlain(n: nat)
    ensures PlainText(PrintNat(n)) && PrintNat(n)[0] != '+'
  {
  }

  lemma PlainTrims(s: string)
    requires PlainText(s)
    ensures Trim(s) == s
  {
    TrimNothing(s);
  }

  /** The text of any address and prefix length: its block when the length fits the family, otherwise
      the error of the length. */
  lemma TextParses(text: AddressText, a: IpAddr, n: nat)
    requires AddressTextOk(text) && Valid(a)
    ensures ParseCidrEntry(text, CidrText(text, a, n)) ==
      if n <= Width(a) then Ok(EntryFor(text, a, n))
      else if n <= 255 then Err(PrefixTooLong(Width(a), n))
      else Err(BadPrefix(PrintNat(n)))
  {
    var front, back := text.show(a), PrintNat(n);
    DigitsPlain(n);
    assert PlainText(front) && text.parse(front) == Some(a);
    hide AddressTextOk, RangeOf, PrintNat, Trim;
    var s := CidrText(text, a, n);
    assert s == front + "/" + back;
    assert s[0] == front[0] && s[|s| - 1] == back[|back| - 1];
    TrimNothing(s);
    PlainTrims(front);
    PlainTrims(back);
    SplitJoined(front, back);
    ParsesNat(n);
  }

  /** A canonical text parses back to the entry it belongs to. */
  lemma CanonicalParses(text: AddressText, a: IpAddr, prefix: nat)
    requires AddressTextOk(text) && Valid(a) && prefix <= Width(a)
    ensures ParseCidrEntry(text, EntryFor(text, a, prefix).cidr) == Ok(EntryFor(text, a, prefix))
  {
    RangeSize(a, prefix);
    RangeOfStart(a, prefix);
    hide AddressTextOk, RangeOf, ParseCidrEntry;
    TextParses(text, RangeOf(a, prefix).start, prefix);
  }

  // ----- The list -----

  function CidrKey(e: CidrEntry): string { e.cidr }

  predicate AllParse(text: AddressText, entries: seq<string>) {
    forall i :: 0 <= i < |entries| ==> ParseCidrEntry(text, entries[i]).Ok?
  }

  function Parses(text: AddressText, entries: seq<string>): (r: seq<CidrEntry>)
    requires AllParse(text, entries)
    ensures |r| == |entries| && forall i :: 0 <= i < |r| ==> r[i] == ParseCidrEntry(text, entries[i]).value
  {
    seq(|entries|, i requires 0 <= i < |entries| => ParseCidrEntry(text, entries[i]).value)
  }

  /** The first error in the list, or the distinct entries in order of first appearance. */
  method CanonicalizeCidrEntries(text: AddressText, entries: seq<string>) returns (r: Result<seq<CidrEntry>>)
    ensures r.Ok? <==> AllParse(text, entries)
    ensures r.Ok? ==> r.value == Firsts(Parses(text, entries), CidrKey)
    ensures r.Err? ==> exists i ::
      0 <= i < |entries| && AllParse(text, entries[..i]) && ParseCidrEntry(text, entries[i]) == Err(r.error)
  {
    var seen: set<string> := {};
    var normalized: seq<CidrEntry> := [];
    hide ParseCidrEntry, Keys, New;
    NothingSeen();
    for i := 0 to |entries|
      invariant AllParse(text, entries[..i])
      invariant seen == Keys(Parses(text, entries[..i]), CidrKey)
      invariant normalized == Firsts(Parses(text, entries[..i]), CidrKey)
    {
      var parsed := ParseCidrEntry(text, entries[i]);
      if parsed.Err? {
        return Err(parsed.error);
      }
      ghost var before := Parses(text, entries[..i]);
      assert Parses(text, entries[..i + 1]) == before + [parsed.value];
      KeysSnoc(before, parsed.value, CidrKey);
      FirstsSnoc(before, parsed.value, CidrKey);
      if parsed.value.cidr !in seen {
        normalized := normalized + [parsed.value];
      }
      seen := seen + {parsed.value.cidr};
    }
    assert entries[..|entries|] == entries;
    r := Ok(normalized);
  }

  lemma NothingSeen()
    ensures Keys<CidrEntry>([], CidrKey) == {} && Firsts<CidrEntry>([], CidrKey) == []
  {
  }

  /** The output covers exactly the addresses that the input covers. */
  lemma CoverageKept(text: AddressText, entries: seq<string>, ip: IpAddr)
    requires AddressTextOk(text) && AllParse(text, entries)
    ensures (exists e :: e in Firsts(Parses(text, entries), CidrKey) && e.range.Contains(ip)) <==>
            (exists e :: e in Parses(text, entries) && e.range.Contains(ip))
  {
    var all := Parses(text, entries);
    var firsts := Firsts(all, CidrKey);
    FirstsAmong(all, CidrKey);
    if e :| e in all && e.range.Contains(ip) {
      var first := FirstWithKey(all, e, CidrKey);
      var i :| 0 <= i < |all| && all[i] == e;
      var j :| 0 <= j < |all| && all[j] == first;
      SameTextExactly(text, entries[i], entries[j]);
      assert first in firsts && first.range.Contains(ip);
    }
  }

  /** Canonicalising the output texts again changes nothing. */
  lemma CanonicalizingTwice(text: AddressText, entries: seq<string>, texts: seq<string>)
    requires AddressTextOk(text) && AllParse(text, entries)
    requires var out := Firsts(Parses(text, entries), CidrKey);
      |texts| == |out| && forall i :: 0 <= i < |out| ==> texts[i] == out[i].cidr
    ensures AllParse(text, texts) && Firsts(Parses(text, texts), CidrKey) == Firsts(Parses(text, entries), CidrKey)
  {
    var all := Parses(text, entries);
    var out := Firsts(all, CidrKey);
    FirstsAmong(all, CidrKey);
    forall i | 0 <= i < |out| ensures ParseCidrEntry(text, texts[i]) == Ok(out[i]) {
      assert out[i] in all;
      var j :| 0 <= j < |all| && all[j] == out[i];
      var a, p := ParsedIsBlock(text, entries[j]);
      CanonicalParses(text, a, p);
    }
    assert Parses(text, texts) == out;
    NewAgain([], all, CidrKey);
  }
}
