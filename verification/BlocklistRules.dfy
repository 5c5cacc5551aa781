/** Blocklist rules: keyed de-duplication and parsing of a downloaded list. */
module BlocklistRules {
  import opened Basics
  import opened FirstSeen
  import opened Text

  datatype Rule = Rule(start: string, end: string)

  const MAX_BLOCKLIST_RULES: nat := 100_000

  function RuleKey(r: Rule): string { LowerAscii(r.start + "-" + r.end) }

  // ----- Merging -----

  function Merged(base: seq<Rule>, additions: seq<Rule>): seq<Rule> { base + New(base, additions, RuleKey) }

  function Deduped(rules: seq<Rule>): seq<Rule> { Firsts(rules, RuleKey) }

  /** De-duplicating a merge is de-duplicating the joined lists. */
  lemma DedupeMerge(a: seq<Rule>, b: seq<Rule>)
    ensures Deduped(Merged(a, b)) == Deduped(a + b)
  {
    FirstsJoin(a, New(a, b, RuleKey), RuleKey);
    FirstsJoin(a, b, RuleKey);
    NewAgain(a, b, RuleKey);
  }

  /** De-duplication is idempotent, keeps one rule per key and loses no key. */
  lemma DedupeHolds(rules: seq<Rule>)
    ensures Deduped(Deduped(rules)) == Deduped(rules)
    ensures Keys(Deduped(rules), RuleKey) == Keys(rules, RuleKey)
    ensures |Deduped(rules)| == |Keys(rules, RuleKey)|
  {
    NewAgain([], rules, RuleKey);
    NewKeys([], rules, RuleKey);
    assert [] + rules == rules && [] + Deduped(rules) == Deduped(rules);
    FirstsCounted(rules, RuleKey);
  }

  /** Same start and end but for the case of letters. */
  predicate SameRule(a: Rule, b: Rule) {
    var x, y := a.start + "-" + a.end, b.start + "-" + b.end;
    |x| == |y| && forall i :: 0 <= i < |x| ==> SameLetter(x[i], y[i])
  }

  lemma SameRuleExactly(a: Rule, b: Rule)
    ensures RuleKey(a) == RuleKey(b) <==> SameRule(a, b)
  {
    LowerSameExactly(a.start + "-" + a.end, b.start + "-" + b.end);
  }

  /** A merge keeps the base as it is, and appends an addition exactly when no rule of the base and no
      earlier addition is the same but for the case of letters. */
  lemma MergedSnoc(base: seq<Rule>, additions: seq<Rule>, x: Rule)
    ensures Merged(base, []) == base
    ensures Merged(base, additions + [x]) == Merged(base, additions)
      + if exists r :: r in base + additions && SameRule(r, x) then [] else [x]
  {
    assert (additions + [x])[..|additions|] == additions;
    var earlier := base + additions;
    forall i | 0 <= i < |earlier| ensures RuleKey(earlier[i]) == RuleKey(x) <==> SameRule(earlier[i], x) {
      SameRuleExactly(earlier[i], x);
    }
    hide RuleKey, SameRule;
    KeyHeld(earlier, x);
    Regrouped(base, New(base, additions, RuleKey), [x]);
  }

  lemma KeyHeld(rules: seq<Rule>, x: Rule)
    requires forall i :: 0 <= i < |rules| ==> (RuleKey(rules[i]) == RuleKey(x) <==> SameRule(rules[i], x))
    ensures RuleKey(x) in Keys(rules, RuleKey) <==> exists r :: r in rules && SameRule(r, x)
  {
    hide RuleKey, SameRule;
    if r :| r in rules && SameRule(r, x) {
      var i :| 0 <= i < |rules| && rules[i] == r;
      assert RuleKey(rules[i]) == RuleKey(x);
    }
  }

  /** The merged and de-duplicated list covers exactly the keys of both lists. */
  lemma MergeKeys(a: seq<Rule>, b: seq<Rule>)
    ensures Keys(Deduped(Merged(a, b)), RuleKey) == Keys(a, RuleKey) + Keys(b, RuleKey)
  {
    DedupeMerge(a, b);
    DedupeHolds(a + b);
    KeysJoin(a, b, RuleKey);
  }

  method MergeRules(base: seq<Rule>, additions: seq<Rule>) returns (merged: seq<Rule>)
    ensures merged == Merged(base, additions)
  {
    merged := base;
    var seen := Keys(base, RuleKey);
    assert base + additions[..0] == base;
    for i := 0 to |additions|
      invariant seen == Keys(base + additions[..i], RuleKey)
      invariant merged == base + New(base, additions[..i], RuleKey)
    {
      var rule := additions[i];
      var key := RuleKey(rule);
      assert additions[..i + 1][..i] == additions[..i];
      assert base + additions[..i + 1] == base + additions[..i] + [rule];
      KeysSnoc(base + additions[..i], rule, RuleKey);
      if key !in seen {
        merged := merged + [rule];
      }
      seen := seen + {key};
    }
    assert additions[..|additions|] == additions;
  }

  method DedupeRules(rules: seq<Rule>) returns (deduped: seq<Rule>)
    ensures deduped == Deduped(rules)
  {
    deduped := MergeRules([], rules);
  }

  // ----- Parsing -----

  /** A canonicalised line: its text and the address range it denotes. */
  datatype Entry = Entry(canonical: string, rule: Rule)

  /** `canonicalize_ip_filter_entry`; `None` when it rejects the line. */
  type Canonicalize = string -> Option<Entry>

  function EntryKey(e: Entry): string { LowerAscii(e.canonical) }

  predicate Significant(line: string) {
    var trimmed := Trim(line);
    trimmed != [] && !StartsWith(trimmed, "#") && !StartsWith(trimmed, "//") && !StartsWith(trimmed, ";")
  }

  /** The valid entries in line order, repeats included. */
  function Entries(lines: seq<string>, canon: Canonicalize): seq<Entry> {
    var n := |lines|;
    if n == 0 then []
    else if Significant(lines[n - 1]) && canon(Trim(lines[n - 1])).Some?
    then Entries(lines[..n - 1], canon) + [canon(Trim(lines[n - 1])).value]
    else Entries(lines[..n - 1], canon)
  }

  function Count(lines: seq<string>, holds: string -> bool): nat {
    var n := |lines|;
    if n == 0 then 0 else Count(lines[..n - 1], holds) + if holds(lines[n - 1]) then 1 else 0
  }

  function Invalid(canon: Canonicalize): string -> bool {
    line => Significant(line) && canon(Trim(line)).None?
  }

  datatype ParseResult = Parsed(rules: seq<Rule>, skipped: nat) | TooManyEntries

  function RulesOf(entries: seq<Entry>): (r: seq<Rule>)
    ensures |r| == |entries| && forall i :: 0 <= i < |r| ==> r[i] == entries[i].rule
  {
    seq(|entries|, i requires 0 <= i < |entries| => entries[i].rule)
  }

  function ParsedBlocklist(lines: seq<string>, canon: Canonicalize): ParseResult {
    var firsts := Firsts(Entries(lines, canon), EntryKey);
    if |firsts| > MAX_BLOCKLIST_RULES then TooManyEntries
    else Parsed(RulesOf(firsts), Count(lines, Invalid(canon)))
  }

  predicate IsComment(s: string) {
    s != "" && (s[0] == '#' || s[0] == ';' || (|s| >= 2 && s[0] == '/' && s[1] == '/'))
  }

  /** A line is read without the white space around it: an empty one and a comment count for nothing, any
      other is an entry if it can be canonicalised, or else skipped. */
  lemma LineRead(lines: seq<string>, before: string, s: string, after: string, canon: Canonicalize)
    requires AllWhitespace(before) && AllWhitespace(after) && Tight(s)
    ensures var more, matters := lines + [before + s + after], s != "" && !IsComment(s);
      && Entries(more, canon) == Entries(lines, canon)
           + (if matters && canon(s).Some? then [canon(s).value] else [])
      && Count(more, Invalid(canon)) == Count(lines, Invalid(canon)) + (if matters && canon(s).None? then 1 else 0)
      && Count(more, Significant) == Count(lines, Significant) + if matters then 1 else 0
  {
    var line := before + s + after;
    TrimPadded(before, s, after);
    assert (lines + [line])[..|lines|] == lines;
    assert Significant(line) <==> s != "" && !IsComment(s) by {
      if |s| >= 2 { assert "//" <= s <==> s[0] == '/' && s[1] == '/'; }
    }
    hide Significant, Trim, IsComment;
  }

  /** Two entries count as one exactly when their canonical texts differ in the case of letters alone. */
  lemma SameEntryExactly(a: Entry, b: Entry)
    ensures var x, y := a.canonical, b.canonical;
      EntryKey(a) == EntryKey(b) <==> |x| == |y| && forall i :: 0 <= i < |x| ==> SameLetter(x[i], y[i])
  {
    LowerSameExactly(a.canonical, b.canonical);
  }

  /** Parsing fails exactly when the distinct valid entries exceed the limit; otherwise every
      significant line is a rule, a repeat of one or skipped. */
  lemma ParseAccounts(lines: seq<string>, canon: Canonicalize)
    ensures var r, entries := ParsedBlocklist(lines, canon), Entries(lines, canon);
      && (r.TooManyEntries? <==> |Keys(entries, EntryKey)| > 100_000)
      && (r.Parsed? ==>
            && |r.rules| == |Keys(entries, EntryKey)|
            && Count(lines, Significant) == |r.rules| + (|entries| - |Keys(entries, EntryKey)|) + r.skipped)
  {
    FirstsCounted(Entries(lines, canon), EntryKey);
    SignificantSplit(lines, canon);
  }

  lemma {:induction false} SignificantSplit(lines: seq<string>, canon: Canonicalize)
    ensures Count(lines, Significant) == |Entries(lines, canon)| + Count(lines, Invalid(canon))
  {
    var n := |lines|;
    if n > 0 { SignificantSplit(lines[..n - 1], canon); }
  }

  lemma {:induction false} EntriesGrow(lines: seq<string>, i: nat, canon: Canonicalize)
    requires i <= |lines|
    ensures |Firsts(Entries(lines[..i], canon), EntryKey)| <= |Firsts(Entries(lines, canon), EntryKey)|
    decreases |lines|
  {
    hide Entries, Firsts;
    var n := |lines|;
    if i < n {
      EntriesGrow(lines[..n - 1], i, canon);
      assert lines[..n - 1][..i] == lines[..i];
      OneMoreEntry(lines[..n - 1], lines[n - 1], canon);
      assert lines[..n - 1] + [lines[n - 1]] == lines;
    } else {
      assert lines[..i] == lines;
    }
  }

  lemma OneMoreEntry(lines: seq<string>, line: string, canon: Canonicalize)
    ensures |Firsts(Entries(lines, canon), EntryKey)| <= |Firsts(Entries(lines + [line], canon), EntryKey)|
  {
    EntrySnoc(lines, line, canon);
    hide Entries, Firsts, Count, Significant, Trim, Keys;
  }

  /** One more line. */
  lemma EntrySnoc(lines: seq<string>, line: string, canon: Canonicalize)
    ensures var before, after := Entries(lines, canon), Entries(lines + [line], canon);
      if Significant(line) && canon(Trim(line)).Some? then
        var e := canon(Trim(line)).value;
        && after == before + [e]
        && Firsts(after, EntryKey) ==
           Firsts(before, EntryKey) + (if EntryKey(e) in Keys(before, EntryKey) then [] else [e])
      else after == before
    ensures Count(lines + [line], Invalid(canon)) ==
      Count(lines, Invalid(canon)) + if Invalid(canon)(line) then 1 else 0
  {
    assert (lines + [line])[..|lines|] == lines;
    var before, after := Entries(lines, canon), Entries(lines + [line], canon);
    if Significant(line) && canon(Trim(line)).Some? {
      assert after[..|before|] == before && [] + before == before;
    }
  }

  lemma ParseNothing(canon: Canonicalize)
    ensures SeenKeys([], canon) == {} && KeptRules([], canon) == [] && Count([], Invalid(canon)) == 0
  {
  }

  /** The state of the scan after some lines. */
  function SeenKeys(lines: seq<string>, canon: Canonicalize): set<string> { Keys(Entries(lines, canon), EntryKey) }

  function KeptRules(lines: seq<string>, canon: Canonicalize): seq<Rule> {
    RulesOf(Firsts(Entries(lines, canon), EntryKey))
  }

  lemma ScanSnoc(lines: seq<string>, line: string, canon: Canonicalize)
    ensures var trimmed, more := Trim(line), lines + [line];
      if !Significant(line) || canon(trimmed).None? then
        && SeenKeys(more, canon) == SeenKeys(lines, canon) && KeptRules(more, canon) == KeptRules(lines, canon)
        && Count(more, Invalid(canon)) == Count(lines, Invalid(canon)) + if Significant(line) then 1 else 0
      else
        var e := canon(trimmed).value;
        && SeenKeys(more, canon) == SeenKeys(lines, canon) + {EntryKey(e)}
        && KeptRules(more, canon) == KeptRules(lines, canon)
            + (if EntryKey(e) in SeenKeys(lines, canon) then [] else [e.rule])
        && Count(more, Invalid(canon)) == Count(lines, Invalid(canon))
  {
    EntrySnoc(lines, line, canon);
    hide Entries, Count, Keys, Firsts, Trim, EntryKey;
    var before, after := Entries(lines, canon), Entries(lines + [line], canon);
    if Significant(line) && canon(Trim(line)).Some? { KeysSnoc(before, canon(Trim(line)).value, EntryKey); }
  }

  method ParseBlocklist(lines: seq<string>, canon: Canonicalize) returns (r: ParseResult)
    ensures r == ParsedBlocklist(lines, canon)
  {
    ParseNothing(canon);
    assert lines[..0] == [];
    var rules: seq<Rule> := [];
    var seen: set<string> := {};
    var skipped := 0;
    hide SeenKeys, KeptRules, Count, Trim, EntryKey;
    for i := 0 to |lines|
      invariant seen == SeenKeys(lines[..i], canon)
      invariant rules == KeptRules(lines[..i], canon)
      invariant |rules| <= MAX_BLOCKLIST_RULES
      invariant skipped == Count(lines[..i], Invalid(canon))
    {
      var trimmed := Trim(lines[i]);
      assert lines[..i + 1] == lines[..i] + [lines[i]];
      ScanSnoc(lines[..i], lines[i], canon);
      if trimmed == [] || StartsWith(trimmed, "#") || StartsWith(trimmed, "//") || StartsWith(trimmed, ";") {
        continue;
      }
      var entry := canon(trimmed);
      if entry.Some? {
        if EntryKey(entry.value) !in seen {
          rules := rules + [entry.value.rule];
          if |rules| > MAX_BLOCKLIST_RULES {
            TooMany(lines, i + 1, canon);
            return TooManyEntries;
          }
        }
        seen := seen + {EntryKey(entry.value)};
      } else {
        skipped := skipped + 1;
      }
    }
    assert lines[..|lines|] == lines;
    r := Parsed(rules, skipped);
    KeptIsParsed(lines, canon);
  }

  lemma TooMany(lines: seq<string>, i: nat, canon: Canonicalize)
    requires i <= |lines| && |KeptRules(lines[..i], canon)| > MAX_BLOCKLIST_RULES
    ensures ParsedBlocklist(lines, canon) == TooManyEntries
  {
    EntriesGrow(lines, i, canon);
  }

  lemma KeptIsParsed(lines: seq<string>, canon: Canonicalize)
    requires |KeptRules(lines, canon)| <= MAX_BLOCKLIST_RULES
    ensures ParsedBlocklist(lines, canon) == Parsed(KeptRules(lines, canon), Count(lines, Invalid(canon)))
  {
  }
}
