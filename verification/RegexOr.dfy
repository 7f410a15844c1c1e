/** The chart's `regex_or` template: a disjunction over labels compiled into one regex that
    the relabelling engine matches, fully anchored, against the joined label values. */
module RegexOr {
  import opened Text

  // ------------------------------------------------------------------ the template

  /** Part `j` of the branch for label `i`. */
  function Part(values: seq<string>, i: nat, j: nat): string
    requires i < |values|
  {
    if j == i then values[i] else ".*"
  }

  function Parts(values: seq<string>, i: nat, from: nat): seq<string>
    requires i < |values| && from <= |values|
    decreases |values| - from
  {
    if from == |values| then [] else [Part(values, i, from)] + Parts(values, i, from + 1)
  }

  function Branch(values: seq<string>, i: nat): string
    requires i < |values|
  {
    Join(Parts(values, i, 0), ";")
  }

  function Branches(values: seq<string>): seq<string> {
    seq(|values|, i requires 0 <= i < |values| => Branch(values, i))
  }

  function Values(labels: map<string, string>, keys: seq<string>): seq<string>
    requires forall key | key in keys :: key in labels
  {
    seq(|keys|, i requires 0 <= i < |keys| => assert keys[i] in keys; labels[keys[i]])
  }

  lemma NextPart(values: seq<string>, i: nat, j: nat)
    requires i < |values| && j < |values|
    ensures Parts(values, i, j) == [Part(values, i, j)] + Parts(values, i, j + 1)
    ensures Part(values, i, j) == if j == i then values[i] else ".*"
  {
  }

  lemma NoMoreParts(values: seq<string>, i: nat)
    requires i < |values|
    ensures Parts(values, i, |values|) == []
  {
  }

  // ---------------------------------------------------- the regex language in use

  datatype Token = Lit(c: char) | AnyOne | AnyRun | Begin | End

  /** The first token of a pattern and how many characters it takes. */
  function FirstToken(s: string): (r: (Token, nat))
    requires s != ""
    ensures 1 <= r.1 <= |s|
  {
    if s[0] == '^' then (Begin, 1)
    else if s[0] == '$' then (End, 1)
    else if s[0] != '.' then (Lit(s[0]), 1)
    else if |s| > 1 && s[1] == '*' then (AnyRun, 2)
    else (AnyOne, 1)
  }

  function Tokens(s: string): seq<Token>
    decreases |s|
  {
    if s == "" then [] else [FirstToken(s).0] + Tokens(s[FirstToken(s).1..])
  }

  /** Whether the tokens match all of `s`; `start` says that nothing was consumed before. */
  predicate Match(ts: seq<Token>, s: string, start: bool)
    decreases |ts|, |s|
  {
    if ts == [] then s == ""
    else match ts[0]
      case Lit(c) => s != "" && s[0] == c && Match(ts[1..], s[1..], false)
      case AnyOne => s != "" && s[0] != '\n' && Match(ts[1..], s[1..], false)
      case AnyRun => Match(ts[1..], s, start) || (s != "" && s[0] != '\n' && Match(ts, s[1..], false))
      case Begin => start && Match(ts[1..], s, start)
      case End => s == "" && Match(ts[1..], s, start)
  }

  /** A fully anchored match: alternation binds weakest, so `^` and `$` in the pattern belong
      to its first and last branch. */
  predicate FullMatch(regex: string, s: string) {
    exists branch | branch in Split(regex, '|') :: Match(Tokens(branch), s, true)
  }

  /** The `keep` rule of the chart. */
  predicate Keeps(values: seq<string>, actual: seq<string>) {
    FullMatch("^" + Join(Branches(values), "|") + "$", Join(actual, ";"))
  }

  // ----------------------------------------------------------------- label values

  predicate Alphanumeric(c: char) {
    'a' <= c <= 'z' || 'A' <= c <= 'Z' || '0' <= c <= '9'
  }

  /** The characters Kubernetes allows in a label value. */
  predicate LabelChar(c: char) {
    Alphanumeric(c) || c in {'-', '_', '.'}
  }

  /** Made of label characters only, which is all that the engine's work depends on. */
  predicate LabelText(v: string) {
    forall c | c in v :: LabelChar(c)
  }

  /** A label value that Kubernetes takes: empty, or at most 63 label characters of which the
      first and the last are alphanumeric. */
  predicate LabelValue(v: string) {
    LabelText(v) && |v| <= 63 && (v != "" ==> Alphanumeric(v[0]) && Alphanumeric(v[|v| - 1]))
  }

  ghost predicate LabelValues(values: seq<string>) {
    forall v | v in values :: LabelValue(v)
  }

  /** Equal up to dots of `v`, which match any character. */
  predicate DotEqual(v: string, a: string) {
    |v| == |a| && forall k | 0 <= k < |v| :: v[k] == '.' || v[k] == a[k]
  }

  // --------------------------------------------------------------------- separators

  function Semicolons(ts: seq<Token>): nat {
    if ts == [] then 0 else (if ts[0] == Lit(';') then 1 else 0) + Semicolons(ts[1..])
  }

  /** Every literal separator of a pattern consumes one of the text. */
  lemma {:induction false} SeparatorsNeeded(ts: seq<Token>, s: string, start: bool)
    requires Match(ts, s, start)
    ensures Semicolons(ts) <= Occurrences(s, ';')
    decreases |ts|, |s|
  {
    if ts != [] {
      match ts[0] {
        case Lit(c) => SeparatorsNeeded(ts[1..], s[1..], false);
        case AnyOne => SeparatorsNeeded(ts[1..], s[1..], false);
        case AnyRun =>
          if Match(ts[1..], s, start) { SeparatorsNeeded(ts[1..], s, start); }
          else { SeparatorsNeeded(ts, s[1..], false); }
        case Begin => SeparatorsNeeded(ts[1..], s, start);
        case End => SeparatorsNeeded(ts[1..], s, start);
      }
    }
  }

  ghost predicate NoBegin(ts: seq<Token>) {
    forall t | t in ts :: !t.Begin?
  }

  lemma {:induction false} StartIrrelevant(ts: seq<Token>, s: string)
    requires NoBegin(ts)
    ensures Match(ts, s, true) <==> Match(ts, s, false)
    decreases |ts|
  {
    if ts != [] && (ts[0].AnyRun? || ts[0].End?) { StartIrrelevant(ts[1..], s); }
  }

  /** `.*` followed by a separator stops exactly at the first separator of the text, if the
      rest of the pattern needs all the separators that follow. */
  lemma {:induction false} RunStopsAtSeparator(a: string, rest: seq<Token>, s: string)
    requires LabelText(a) && NoBegin(rest) && Occurrences(s, ';') <= Semicolons(rest)
    ensures Match([AnyRun] + ([Lit(';')] + rest), a + ";" + s, false) <==> Match(rest, s, false)
    decreases |a|
  {
    var tail := [Lit(';')] + rest;
    var ts, text := [AnyRun] + tail, a + ";" + s;
    assert ts[1..] == tail && tail[1..] == rest;
    if a == "" {
      assert text[1..] == s;
      if Match(ts, s, false) { SeparatorsNeeded(ts, s, false); }
    } else {
      assert text[1..] == a[1..] + ";" + s;
      assert text[0] == a[0] && LabelChar(a[0]) && a[0] != ';' && a[0] != '\n';
      RunStopsAtSeparator(a[1..], rest, s);
    }
  }

  lemma {:induction false} RunMatchesAll(a: string, start: bool)
    requires LabelText(a)
    ensures Match([AnyRun], a, start)
    decreases |a|
  {
    assert [AnyRun][1..] == [];
    if a != "" {
      assert LabelChar(a[0]);
      RunMatchesAll(a[1..], false);
    }
  }

  /** A label value as a pattern, its dots matching anything. */
  function ValueTokens(v: string): seq<Token> {
    if v == "" then [] else [if v[0] == '.' then AnyOne else Lit(v[0])] + ValueTokens(v[1..])
  }

  lemma {:induction false} ValueThenSeparator(v: string, a: string, rest: seq<Token>, s: string)
    requires LabelText(v) && LabelText(a) && NoBegin(rest) && Occurrences(s, ';') <= Semicolons(rest)
    ensures Match(ValueTokens(v) + ([Lit(';')] + rest), a + ";" + s, false) <==> DotEqual(v, a) && Match(rest, s, false)
    decreases |v|
  {
    var tail := [Lit(';')] + rest;
    var ts, text := ValueTokens(v) + tail, a + ";" + s;
    assert tail[1..] == rest;
    if v == "" {
      assert ts == tail;
      if a == "" { assert text[1..] == s; } else { assert text[0] == a[0] && LabelChar(a[0]); }
    } else {
      assert ts[1..] == ValueTokens(v[1..]) + tail;
      assert LabelChar(v[0]);
      if a == "" {
        assert text[0] == ';' && text[1..] == s;
        if Match(ts[1..], s, false) {
          SeparatorsNeeded(ts[1..], s, false);
          SemicolonsAppend(ValueTokens(v[1..]), tail);
        }
      } else {
        assert text[0] == a[0] && text[1..] == a[1..] + ";" + s && LabelChar(a[0]);
        ValueThenSeparator(v[1..], a[1..], rest, s);
        DotEqualStep(v, a);
      }
    }
  }

  lemma DotEqualStep(v: string, a: string)
    requires v != "" && a != ""
    ensures DotEqual(v, a) <==> (v[0] == '.' || v[0] == a[0]) && DotEqual(v[1..], a[1..])
  {
    if (v[0] == '.' || v[0] == a[0]) && DotEqual(v[1..], a[1..]) {
      forall k | 0 <= k < |v| ensures v[k] == '.' || v[k] == a[k] {
        if k > 0 { assert v[1..][k - 1] == v[k] && a[1..][k - 1] == a[k]; }
      }
    }
  }

  lemma {:induction false} ValueAlone(v: string, a: string)
    requires LabelText(v) && LabelText(a)
    ensures Match(ValueTokens(v), a, false) <==> DotEqual(v, a)
    decreases |v|
  {
    if v != "" {
      assert ValueTokens(v)[1..] == ValueTokens(v[1..]);
      if a != "" {
        assert LabelChar(a[0]);
        ValueAlone(v[1..], a[1..]);
        DotEqualStep(v, a);
      }
    }
  }

  lemma {:induction false} SemicolonsAppend(xs: seq<Token>, ys: seq<Token>)
    ensures Semicolons(xs + ys) == Semicolons(xs) + Semicolons(ys)
    decreases |xs|
  {
    if xs == [] {
      assert xs + ys == ys;
    } else {
      assert (xs + ys)[1..] == xs[1..] + ys;
      SemicolonsAppend(xs[1..], ys);
    }
  }

  // ------------------------------------------------------------------- one branch

  function PartTokens(values: seq<string>, i: nat, j: nat): seq<Token>
    requires i < |values|
  {
    if j == i then ValueTokens(values[i]) else [AnyRun]
  }

  function BranchTokens(values: seq<string>, i: nat, from: nat): seq<Token>
    requires i < |values| && from < |values|
    decreases |values| - from
  {
    if from == |values| - 1 then PartTokens(values, i, from)
    else PartTokens(values, i, from) + ([Lit(';')] + BranchTokens(values, i, from + 1))
  }

  ghost predicate LabelTexts(values: seq<string>) {
    forall v | v in values :: LabelText(v)
  }

  lemma {:induction false} ValueTokensPlain(v: string)
    requires LabelText(v)
    ensures NoBegin(ValueTokens(v)) && Semicolons(ValueTokens(v)) == 0
    decreases |v|
  {
    if v != "" {
      assert LabelChar(v[0]);
      ValueTokensPlain(v[1..]);
    }
  }

  lemma PartTokensPlain(values: seq<string>, i: nat, j: nat)
    requires LabelTexts(values) && i < |values|
    ensures NoBegin(PartTokens(values, i, j)) && Semicolons(PartTokens(values, i, j)) == 0
  {
    hide LabelText, ValueTokens;
    assert values[i] in values;
    ValueTokensPlain(values[i]);
    assert [AnyRun][1..] == [];
  }

  lemma {:induction false} BranchTokensPlain(values: seq<string>, i: nat, from: nat)
    requires LabelTexts(values) && i < |values| && from < |values|
    ensures NoBegin(BranchTokens(values, i, from))
    ensures Semicolons(BranchTokens(values, i, from)) == |values| - 1 - from
    decreases |values| - from
  {
    hide LabelTexts, PartTokens;
    PartTokensPlain(values, i, from);
    if from < |values| - 1 {
      var part, rest := PartTokens(values, i, from), BranchTokens(values, i, from + 1);
      BranchTokensPlain(values, i, from + 1);
      SemicolonFirst(rest);
      hide Semicolons;
      SemicolonsAppend(part, [Lit(';')] + rest);
    }
  }

  lemma SemicolonFirst(rest: seq<Token>)
    ensures Semicolons([Lit(';')] + rest) == 1 + Semicolons(rest)
  {
    assert ([Lit(';')] + rest)[1..] == rest;
  }

  lemma {:induction false} JoinSeparators(actual: seq<string>)
    requires LabelTexts(actual) && actual != []
    ensures Occurrences(Join(actual, ";"), ';') == |actual| - 1
    decreases |actual|
  {
    assert actual[0] in actual;
    NoSemicolon(actual[0]);
    if |actual| > 1 {
      JoinSeparators(actual[1..]);
      var s := Join(actual[1..], ";");
      OccurrencesAppend(actual[0], ";" + s, ';');
      assert actual[0] + ";" + s == actual[0] + (";" + s) && (";" + s)[1..] == s;
    }
  }

  lemma {:induction false} NoSemicolon(a: string)
    requires LabelText(a)
    ensures Occurrences(a, ';') == 0
    decreases |a|
  {
    if a != "" {
      assert LabelChar(a[0]);
      NoSemicolon(a[1..]);
    }
  }

  /** The branch for label `i` matches the joined values iff label `i` has its value. */
  lemma {:induction false} BranchMatches(values: seq<string>, actual: seq<string>, i: nat, from: nat)
    requires LabelTexts(values) && LabelTexts(actual) && |actual| == |values|
    requires i < |values| && from < |values|
    ensures Match(BranchTokens(values, i, from), Join(actual[from..], ";"), false)
       <==> i < from || DotEqual(values[i], actual[i])
    decreases |values| - from
  {
    assert values[i] in values && actual[from] in actual;
    if from == |values| - 1 {
      assert actual[from..] == [actual[from]];
      if from == i { ValueAlone(values[i], actual[i]); } else { RunMatchesAll(actual[from], false); }
    } else {
      var rest, s := BranchTokens(values, i, from + 1), Join(actual[from + 1..], ";");
      assert actual[from..][0] == actual[from] && actual[from..][1..] == actual[from + 1..];
      BranchTokensPlain(values, i, from + 1);
      assert LabelTexts(actual[from + 1..]);
      JoinSeparators(actual[from + 1..]);
      BranchMatches(values, actual, i, from + 1);
      if from == i {
        ValueThenSeparator(values[i], actual[i], rest, s);
      } else {
        RunStopsAtSeparator(actual[from], rest, s);
      }
    }
  }

  // ------------------------------------------------- from the string to the tokens

  /** Tokenising distributes over concatenation unless a star would join up. */
  lemma {:induction false} TokensAppend(a: string, b: string)
    requires b == "" || b[0] != '*'
    ensures Tokens(a + b) == Tokens(a) + Tokens(b)
    decreases |a|
  {
    if a == "" {
      assert a + b == b;
    } else {
      var (t, n) := FirstToken(a);
      assert FirstToken(a + b) == (t, n) by {
        assert (a + b)[0] == a[0];
        if |a| > 1 { assert (a + b)[1] == a[1]; } else if b != "" { assert (a + b)[1] == b[0]; }
      }
      hide FirstToken;
      assert (a + b)[n..] == a[n..] + b;
      TokensAppend(a[n..], b);
      assert [t] + (Tokens(a[n..]) + Tokens(b)) == [t] + Tokens(a[n..]) + Tokens(b);
    }
  }

  lemma {:induction false} TokensOfValue(v: string)
    requires LabelText(v)
    ensures Tokens(v) == ValueTokens(v)
    decreases |v|
  {
    if v != "" {
      assert LabelChar(v[0]);
      if |v| > 1 { assert LabelChar(v[1]); }
      TokensOfValue(v[1..]);
    }
  }

  lemma TokensOfPart(values: seq<string>, i: nat, j: nat)
    requires LabelTexts(values) && i < |values| && j < |values|
    ensures Tokens(Part(values, i, j)) == PartTokens(values, i, j)
  {
    assert values[i] in values;
    TokensOfValue(values[i]);
    assert Tokens(".*") == [AnyRun] by { assert ".*"[2..] == ""; }
  }

  lemma TokensAcrossSeparator(a: string, s: string)
    ensures Tokens(a + ";" + s) == Tokens(a) + ([Lit(';')] + Tokens(s))
  {
    TokensAppend(a, ";" + s);
    assert a + ";" + s == a + (";" + s) && (";" + s)[1..] == s;
  }

  lemma {:induction false} TokensOfBranch(values: seq<string>, i: nat, from: nat)
    requires LabelTexts(values) && i < |values| && from < |values|
    ensures Tokens(Join(Parts(values, i, from), ";")) == BranchTokens(values, i, from)
    decreases |values| - from
  {
    hide Tokens, PartTokens, Part, LabelTexts;
    var part, rest := Part(values, i, from), Parts(values, i, from + 1);
    TokensOfPart(values, i, from);
    assert Parts(values, i, from) == [part] + rest;
    if from == |values| - 1 {
      assert rest == [];
    } else {
      assert |rest| > 0;
      assert ([part] + rest)[1..] == rest;
      TokensOfBranch(values, i, from + 1);
      TokensAcrossSeparator(part, Join(rest, ";"));
    }
  }

  lemma {:induction false} BranchHasNoBar(values: seq<string>, i: nat, from: nat)
    requires LabelTexts(values) && i < |values| && from <= |values|
    ensures '|' !in Join(Parts(values, i, from), ";")
    decreases |values| - from
  {
    assert values[i] in values && !LabelChar('|');
    if from < |values| {
      BranchHasNoBar(values, i, from + 1);
      var parts := Parts(values, i, from);
      assert parts[1..] == Parts(values, i, from + 1);
    }
  }

  // ------------------------------------------------------------ the anchored pattern

  /** The branches as the engine sees them: `^` on the first, `$` on the last. */
  function Anchored(values: seq<string>, i: nat): string
    requires i < |values|
  {
    (if i == 0 then "^" else "") + Branch(values, i) + (if i == |values| - 1 then "$" else "")
  }

  function AnchoredFrom(values: seq<string>, from: nat): seq<string>
    requires from <= |values|
    decreases |values| - from
  {
    if from == |values| then [] else [Anchored(values, from)] + AnchoredFrom(values, from + 1)
  }

  lemma {:induction false} AnchorsBindToEnds(values: seq<string>, from: nat)
    requires from < |values|
    ensures (if from == 0 then "^" else "") + Join(Branches(values)[from..], "|") + "$"
         == Join(AnchoredFrom(values, from), "|")
    decreases |values| - from
  {
    hide Branch;
    var pre, bs, rest := if from == 0 then "^" else "", Branches(values)[from..], AnchoredFrom(values, from + 1);
    assert AnchoredFrom(values, from) == [Anchored(values, from)] + rest;
    if from == |values| - 1 {
      assert bs == [Branch(values, from)] && rest == [];
    } else {
      assert bs == [Branch(values, from)] + Branches(values)[from + 1..];
      var s := Join(Branches(values)[from + 1..], "|");
      AnchorsBindToEnds(values, from + 1);
      assert "" + s == s;
      assert |rest| > 0;
      JoinCons(Branch(values, from), Branches(values)[from + 1..]);
      JoinCons(Anchored(values, from), rest);
      BarGroups(pre, Branch(values, from), s);
    }
  }

  lemma JoinCons(first: string, rest: seq<string>)
    requires rest != []
    ensures Join([first] + rest, "|") == first + "|" + Join(rest, "|")
  {
    assert ([first] + rest)[1..] == rest;
  }

  lemma BarGroups(pre: string, b: string, s: string)
    ensures pre + (b + "|" + s) + "$" == (pre + b + "") + "|" + (s + "$")
  {
  }

  lemma {:induction false} AnchoredMembers(values: seq<string>, from: nat)
    requires from <= |values|
    ensures forall b :: b in AnchoredFrom(values, from) <==>
      exists i :: from <= i < |values| && b == Anchored(values, i)
    decreases |values| - from
  {
    if from < |values| { AnchoredMembers(values, from + 1); }
  }

  lemma {:induction false} EndIsIdle(ts: seq<Token>, s: string, start: bool)
    ensures Match(ts + [End], s, start) <==> Match(ts, s, start)
    decreases |ts|, |s|
  {
    if ts == [] {
      assert ts + [End] == [End] && [End][1..] == [];
    } else {
      assert (ts + [End])[1..] == ts[1..] + [End];
      match ts[0] {
        case Lit(_) => if s != "" { EndIsIdle(ts[1..], s[1..], false); }
        case AnyOne => if s != "" { EndIsIdle(ts[1..], s[1..], false); }
        case AnyRun =>
          EndIsIdle(ts[1..], s, start);
          if s != "" { EndIsIdle(ts, s[1..], false); }
        case Begin => EndIsIdle(ts[1..], s, start);
        case End => EndIsIdle(ts[1..], s, start);
      }
    }
  }

  lemma BeginToken(s: string)
    ensures Tokens("^" + s) == [Begin] + Tokens(s)
  {
    assert ("^" + s)[1..] == s;
  }

  lemma EndToken(s: string)
    ensures Tokens(s + "$") == Tokens(s) + [End]
  {
    assert "$"[1..] == "";
    TokensAppend(s, "$");
  }

  lemma AnchoredTokens(values: seq<string>, i: nat)
    requires LabelTexts(values) && i < |values|
    ensures Tokens(Anchored(values, i))
         == (if i == 0 then [Begin] else []) + (BranchTokens(values, i, 0) + (if i == |values| - 1 then [End] else []))
  {
    TokensOfBranch(values, i, 0);
    var b := Branch(values, i);
    var inner := if i == |values| - 1 then b + "$" else b;
    assert "" + b + "" == b && "" + b + "$" == b + "$";
    assert "^" + b + "" == "^" + b && "^" + b + "$" == "^" + (b + "$");
    hide Branch, BranchTokens, LabelTexts, Tokens;
    EndToken(b);
    BeginToken(inner);
    assert Anchored(values, i) == if i == 0 then "^" + inner else inner;
    var tokens := BranchTokens(values, i, 0) + (if i == |values| - 1 then [End] else []);
    assert Tokens(inner) == tokens && [] + tokens == tokens;
  }

  /** The anchors change nothing: the engine anchors every branch anyway. */
  lemma AnchoredMatches(values: seq<string>, i: nat, s: string)
    requires LabelTexts(values) && i < |values|
    ensures '|' !in Anchored(values, i)
    ensures Match(Tokens(Anchored(values, i)), s, true) <==> Match(BranchTokens(values, i, 0), s, false)
  {
    BranchHasNoBar(values, i, 0);
    AnchoredTokens(values, i);
    BranchTokensPlain(values, i, 0);
    var ts := BranchTokens(values, i, 0);
    hide Tokens, BranchTokens, LabelTexts, NoBegin;
    EndIsIdle(ts, s, true);
    StartIrrelevant(ts, s);
    var inner := ts + (if i == |values| - 1 then [End] else []);
    assert i < |values| - 1 ==> inner == ts;
    if i == 0 {
      assert ([Begin] + inner)[1..] == inner;
    } else {
      assert [] + inner == inner;
    }
  }

  // ------------------------------------------------------------------ the theorems

  /** For all values made of label characters, the rule keeps a target iff some label
      equals its configured value up to the dots of the latter: no `.*` ever reaches across
      a separator. */
  lemma RegexOrKeeps(values: seq<string>, actual: seq<string>)
    requires LabelTexts(values) && LabelTexts(actual) && |actual| == |values| > 0
    ensures Keeps(values, actual) <==> exists i | 0 <= i < |values| :: DotEqual(values[i], actual[i])
  {
    hide Match, Tokens, Anchored, DotEqual, LabelText, Branches;
    var regex, text := "^" + Join(Branches(values), "|") + "$", Join(actual, ";");
    AnchorsBindToEnds(values, 0);
    assert Branches(values)[0..] == Branches(values);
    AnchoredMembers(values, 0);
    forall i | 0 <= i < |values|
      ensures '|' !in Anchored(values, i)
      ensures Match(Tokens(Anchored(values, i)), text, true) <==> DotEqual(values[i], actual[i])
    {
      AnchoredMatches(values, i, text);
      BranchMatches(values, actual, i, 0);
      assert actual[0..] == actual;
    }
    var branches := AnchoredFrom(values, 0);
    assert ['|'] == "|";
    SplitJoin(branches, '|');
    assert Split(regex, '|') == branches;
    forall i | 0 <= i < |values| && DotEqual(values[i], actual[i]) ensures Keeps(values, actual) {
      assert Anchored(values, i) in branches;
    }
  }

  ghost predicate SomeLabelEquals(values: seq<string>, actual: seq<string>)
    requires |actual| == |values|
  {
    exists i | 0 <= i < |values| :: actual[i] == values[i]
  }

  /** The disjunction the chart documents, at least one of the labels present with its value,
      is decided correctly for every target iff no configured value contains a dot. */
  lemma RegexOrIsExactIff(values: seq<string>)
    requires LabelValues(values) && values != []
    ensures (forall actual: seq<string> | |actual| == |values| && LabelValues(actual) ::
               Keeps(values, actual) <==> SomeLabelEquals(values, actual))
       <==> forall v | v in values :: '.' !in v
  {
    hide Keeps, LabelText, Alphanumeric;
    if forall v | v in values :: '.' !in v {
      forall actual: seq<string> | |actual| == |values| && LabelValues(actual)
        ensures Keeps(values, actual) <==> SomeLabelEquals(values, actual)
      {
        RegexOrKeeps(values, actual);
        forall i | 0 <= i < |values| ensures DotEqual(values[i], actual[i]) <==> actual[i] == values[i] {
          assert values[i] in values;
        }
      }
    } else {
      var v :| v in values && '.' in v;
      var i :| 0 <= i < |values| && values[i] == v;
      var actual := DotIsFooled(values, i);
    }
  }

  /** A target without any configured value that is kept because of a dot. */
  lemma DotIsFooled(values: seq<string>, i: nat) returns (actual: seq<string>)
    requires LabelValues(values) && i < |values| && '.' in values[i]
    ensures |actual| == |values| && LabelValues(actual)
    ensures Keeps(values, actual) && !SomeLabelEquals(values, actual)
  {
    hide Keeps;
    assert LabelValue(values[i]);
    var k :| 0 <= k < |values[i]| && values[i][k] == '.';
    var fooled := values[i][k := 'x'];
    assert LabelValue(fooled) by { assert 0 < k < |fooled| - 1; }
    assert LabelValue("x") && LabelValue("");
    actual := seq(|values|,
      j requires 0 <= j < |values| => if j == i then fooled else if values[j] == "" then "x" else "");
    forall a | a in actual ensures LabelValue(a) {
      var j :| 0 <= j < |actual| && actual[j] == a;
    }
    assert DotEqual(values[i], actual[i]);
    RegexOrKeeps(values, actual);
    assert fooled[k] == 'x';
    assert forall j | 0 <= j < |values| :: actual[j] != values[j];
  }

  // ---------------------------------------------------------- the template's result

  lemma TemplateKeeps(labels: map<string, string>, keys: seq<string>, regex: string, actual: seq<string>)
    requires forall key | key in keys :: key in labels
    requires regex == Join(Branches(Values(labels, keys)), "|")
    requires |actual| == |keys| > 0
    requires (forall key | key in keys :: LabelText(labels[key])) && (forall a | a in actual :: LabelText(a))
    ensures FullMatch("^" + regex + "$", Join(actual, ";"))
       <==> exists i | 0 <= i < |keys| :: DotEqual(labels[keys[i]], actual[i])
    ensures (forall key | key in keys :: '.' !in labels[key]) ==>
      (FullMatch("^" + regex + "$", Join(actual, ";")) <==> exists i | 0 <= i < |keys| :: labels[keys[i]] == actual[i])
  {
    hide FullMatch, LabelText, Branches, Join;
    var values := Values(labels, keys);
    forall v | v in values ensures LabelText(v) {
      var i :| 0 <= i < |values| && values[i] == v;
      assert keys[i] in keys;
    }
    RegexOrKeeps(values, actual);
    assert forall i | 0 <= i < |keys| :: keys[i] in keys && values[i] == labels[keys[i]];
    if forall key | key in keys :: '.' !in labels[key] {
      forall i | 0 <= i < |keys| ensures DotEqual(labels[keys[i]], actual[i]) <==> labels[keys[i]] == actual[i] {
        assert keys[i] in keys;
      }
    }
  }

  /** The nested loops of the template, and what the anchored rule does with their result: it
      keeps a target iff some label equals its configured value up to dots, and exactly if no
      value has one. */
  method RegexOr(labels: map<string, string>, keys: seq<string>) returns (regex: string)
    requires forall key | key in keys :: key in labels
    ensures regex == Join(Branches(Values(labels, keys)), "|")
    ensures forall actual: seq<string> | |actual| == |keys| > 0
              && (forall key | key in keys :: LabelText(labels[key])) && (forall a | a in actual :: LabelText(a)) ::
      FullMatch("^" + regex + "$", Join(actual, ";")) <==>
        exists i | 0 <= i < |keys| :: DotEqual(labels[keys[i]], actual[i])
    ensures forall actual: seq<string> | |actual| == |keys| > 0
              && (forall key | key in keys :: LabelText(labels[key]) && '.' !in labels[key])
              && (forall a | a in actual :: LabelText(a)) ::
      FullMatch("^" + regex + "$", Join(actual, ";")) <==> exists i | 0 <= i < |keys| :: labels[keys[i]] == actual[i]
  {
    hide Join, Parts, Part, FullMatch, DotEqual, LabelText;
    ghost var values := Values(labels, keys);
    var regexParts: seq<string> := [];
    for i := 0 to |keys|
      invariant regexParts == Branches(values)[..i]
    {
      var part: seq<string> := [];
      assert part + Parts(values, i, 0) == Parts(values, i, 0);
      for j := 0 to |keys|
        invariant part + Parts(values, i, j) == Parts(values, i, 0)
      {
        NextPart(values, i, j);
        assert part + Parts(values, i, j) == part + [Part(values, i, j)] + Parts(values, i, j + 1);
        if j == i {
          assert keys[i] in keys;
          part := part + [labels[keys[i]]];
        } else {
          part := part + [".*"];
        }
      }
      NoMoreParts(values, i);
      assert part == part + Parts(values, i, |keys|);
      regexParts := regexParts + [Join(part, ";")];
    }
    assert regexParts == Branches(values);
    regex := Join(regexParts, "|");
    forall actual: seq<string> | |actual| == |keys| > 0
           && (forall key | key in keys :: LabelText(labels[key])) && (forall a | a in actual :: LabelText(a))
      ensures FullMatch("^" + regex + "$", Join(actual, ";"))
         <==> exists i | 0 <= i < |keys| :: DotEqual(labels[keys[i]], actual[i])
      ensures (forall key | key in keys :: '.' !in labels[key]) ==>
        (FullMatch("^" + regex + "$", Join(actual, ";")) <==>
          exists i | 0 <= i < |keys| :: labels[keys[i]] == actual[i])
    {
      TemplateKeeps(labels, keys, regex, actual);
    }
  }

  /** Letters, digits, dashes, underscores and dots. */
  lemma LabelTextByChar(v: string)
    ensures LabelText(v) <==>
      forall c | c in v :: 'a' <= c <= 'z' || 'A' <= c <= 'Z' || '0' <= c <= '9' || c == '-' || c == '_' || c == '.'
  {
  }

  // ------------------------------------------------------------- laws of the engine

  /** A pattern of plain characters matches its own text only. */
  lemma {:induction false} PlainMatchesItself(p: string, s: string, start: bool)
    requires forall c | c in p :: c !in {'.', '^', '$'}
    ensures Match(Tokens(p), s, start) <==> s == p
    decreases |p|
  {
    if p != "" {
      assert p[0] in p && forall c | c in p[1..] :: c in p;
      assert Tokens(p) == [Lit(p[0])] + Tokens(p[1..]);
      assert Tokens(p)[1..] == Tokens(p[1..]);
      if s != "" && s[0] == p[0] {
        PlainMatchesItself(p[1..], s[1..], false);
        assert s == [s[0]] + s[1..] && p == [p[0]] + p[1..];
      }
    }
  }

  /** `.` takes any one character but a newline, `.*` any run of them. */
  lemma {:induction false} DotsMatchAnything(s: string, start: bool)
    ensures Match(Tokens("."), s, start) <==> |s| == 1 && s[0] != '\n'
    ensures Match(Tokens(".*"), s, start) <==> '\n' !in s
    decreases |s|
  {
    assert "."[1..] == "" && ".*"[2..] == "";
    assert Tokens(".") == [AnyOne] && Tokens(".*") == [AnyRun];
    assert [AnyOne][1..] == [] && [AnyRun][1..] == [];
    if s != "" { DotsMatchAnything(s[1..], false); }
  }

  /** A bar separates alternatives. */
  lemma BarSeparates(p: string, q: string, s: string)
    requires '|' !in p
    ensures FullMatch(p + "|" + q, s) <==> FullMatch(p, s) || FullMatch(q, s)
  {
    hide Match, Tokens, Split;
    SplitAtSeparator(p, q, '|');
    SplitWhole(p, '|');
    assert p + "|" + q == p + ['|'] + q;
    assert forall b :: b in [p] + Split(q, '|') <==> b == p || b in Split(q, '|');
  }
}
