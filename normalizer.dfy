/**
 * `SBERTEvaluator.preprocessText`: the canonical form an answer is put into
 * before it is embedded. Lower-case, single-spaced and trimmed, with fifteen
 * English contractions written out, every run of `.!?` turned into one `.`,
 * every run of `,;:` into one `,`, and cut to 1000 characters.
 */
module Normalizer {
  import opened Wrappers
  import opened JsText

  /** Longest text kept, in characters. */
  const MaxLength: nat := 1000

  /** The contraction table, in the order `preprocessText` applies it. */
  const Contractions: seq<(string, string)> := [
    ("don't", "do not"),
    ("won't", "will not"),
    ("can't", "cannot"),
    ("isn't", "is not"),
    ("aren't", "are not"),
    ("wasn't", "was not"),
    ("weren't", "were not"),
    ("hasn't", "has not"),
    ("haven't", "have not"),
    ("hadn't", "had not"),
    ("doesn't", "does not"),
    ("didn't", "did not"),
    ("shouldn't", "should not"),
    ("wouldn't", "would not"),
    ("couldn't", "could not")
  ]

  // ---------------------------------------------------------------------------
  // Collapsing runs of a character class
  // ---------------------------------------------------------------------------

  /** The three character classes whose runs are collapsed: `\s`, `[.!?]` and `[,;:]`. */
  datatype RunClass = Whitespace | Terminator | Separator

  predicate InClass(k: RunClass, c: char) {
    match k
    case Whitespace => IsSpace(c)
    case Terminator => c == '.' || c == '!' || c == '?'
    case Separator => c == ',' || c == ';' || c == ':'
  }

  /** The single character that replaces a run of class `k`. */
  function Rep(k: RunClass): (c: char)
    ensures InClass(k, c)
  {
    match k
    case Whitespace => ' '
    case Terminator => '.'
    case Separator => ','
  }

  /** Every class character is the replacement character, and no two class characters are adjacent. */
  predicate Collapsed(t: string, k: RunClass) {
    forall i :: 0 <= i < |t| && InClass(k, t[i]) ==>
      t[i] == Rep(k) && (i + 1 < |t| ==> !InClass(k, t[i + 1]))
  }

  /** What is left of `s` once its leading run of class `k` is skipped. */
  function DropRun(s: string, k: RunClass): (r: string)
    ensures |r| <= |s| && r == s[|s| - |r|..]
    ensures r == [] || !InClass(k, r[0])
  {
    if s != [] && InClass(k, s[0]) then DropRun(s[1..], k) else s
  }

  /** `s.replace(/[class]+/g, rep)`: each maximal run of the class becomes one `Rep(k)`. */
  function Collapse(s: string, k: RunClass): (r: string)
    ensures |r| <= |s|
    ensures r == [] <==> s == []
    ensures r != [] ==> r[0] == if InClass(k, s[0]) then Rep(k) else s[0]
    decreases |s|
  {
    if s == [] then []
    else if InClass(k, s[0]) then [Rep(k)] + Collapse(DropRun(s[1..], k), k)
    else [s[0]] + Collapse(s[1..], k)
  }

  /** The characters of `s` outside class `k`, in order. */
  function Strip(s: string, k: RunClass): (r: string)
    ensures forall c :: c in r ==> !InClass(k, c)
    decreases |s|
  {
    if s == [] then [] else (if InClass(k, s[0]) then [] else [s[0]]) + Strip(s[1..], k)
  }

  /** Skipping a run of the class skips no other character. */
  lemma {:induction false} StripDropRun(s: string, k: RunClass)
    ensures Strip(DropRun(s, k), k) == Strip(s, k)
    decreases |s|
  {
    if s != [] && InClass(k, s[0]) {
      StripDropRun(s[1..], k);
    }
  }

  /** Collapsing keeps every character outside the class, in order, and adds none. */
  lemma {:induction false} CollapseKeepsOthers(s: string, k: RunClass)
    ensures Strip(Collapse(s, k), k) == Strip(s, k)
    decreases |s|
  {
    if s != [] {
      var t := Collapse(s, k);
      var rest := Rest(s, k);
      CollapseKeepsOthers(rest, k);
      CollapseUnfold(s, k);
      assert t[1..] == Collapse(rest, k);
      if InClass(k, s[0]) {
        StripDropRun(s[1..], k);
      }
    }
  }

  /** Collapsing leaves every run of the class as a single replacement character. */
  lemma {:induction false} CollapseIsCollapsed(s: string, k: RunClass)
    ensures Collapsed(Collapse(s, k), k)
    decreases |s|
  {
    if s != [] {
      var rest := Rest(s, k);
      CollapseIsCollapsed(rest, k);
      CollapseUnfold(s, k);
      CollapsedConcat([Collapse(s, k)[0]], Collapse(rest, k), k);
    }
  }

  /** What follows the first character of `s` once a leading run is skipped. */
  function Rest(s: string, k: RunClass): (r: string)
    requires s != []
    ensures |r| < |s| && r == s[|s| - |r|..]
  {
    if InClass(k, s[0]) then DropRun(s[1..], k) else s[1..]
  }

  lemma CollapseUnfold(s: string, k: RunClass)
    requires s != []
    ensures Collapse(s, k) == [Collapse(s, k)[0]] + Collapse(Rest(s, k), k)
  {
  }

  /** Collapsing introduces no character besides the replacement. */
  lemma {:induction false} CollapseChars(s: string, k: RunClass)
    ensures forall c :: c in Collapse(s, k) ==> c == Rep(k) || c in s
    decreases |s|
  {
    if s != [] {
      var rest := Rest(s, k);
      CollapseUnfold(s, k);
      CollapseChars(rest, k);
      forall c | c in rest ensures c in s {
        var i :| 0 <= i < |rest| && rest[i] == c;
        assert s[|s| - |rest| + i] == c;
      }
    }
  }

  /** The last character of a collapsed text is the replacement or the last character of the input. */
  lemma {:induction false} CollapseLast(s: string, k: RunClass)
    requires s != []
    ensures var r := Collapse(s, k); r[|r| - 1] == Rep(k) || r[|r| - 1] == s[|s| - 1]
    decreases |s|
  {
    var rest := Rest(s, k);
    CollapseUnfold(s, k);
    if rest != [] {
      CollapseLast(rest, k);
      assert rest[|rest| - 1] == s[|s| - 1];
    }
  }

  lemma CollapsedSlice(t: string, a: nat, b: nat, k: RunClass)
    requires a <= b <= |t| && Collapsed(t, k)
    ensures Collapsed(t[a..b], k)
  {
    var u := t[a..b];
    forall i | 0 <= i < |u| && InClass(k, u[i])
      ensures u[i] == Rep(k) && (i + 1 < |u| ==> !InClass(k, u[i + 1]))
    {
      assert u[i] == t[a + i];
      if i + 1 < |u| {
        assert u[i + 1] == t[a + i + 1];
      }
    }
  }

  lemma CollapsedConcat(a: string, b: string, k: RunClass)
    requires Collapsed(a, k) && Collapsed(b, k)
    requires a != [] && b != [] && InClass(k, a[|a| - 1]) ==> !InClass(k, b[0])
    ensures Collapsed(a + b, k)
  {
    var t := a + b;
    forall i | 0 <= i < |t| && InClass(k, t[i])
      ensures t[i] == Rep(k) && (i + 1 < |t| ==> !InClass(k, t[i + 1]))
    {
      if i < |a| {
        assert t[i] == a[i];
        if i + 1 < |a| {
          assert t[i + 1] == a[i + 1];
        } else if i + 1 < |t| {
          assert t[i + 1] == b[0];
        }
      } else {
        assert t[i] == b[i - |a|];
        if i + 1 < |t| {
          assert t[i + 1] == b[i + 1 - |a|];
        }
      }
    }
  }

  /** A collapsed text is left as it is. */
  lemma {:induction false} CollapseFixesCollapsed(s: string, k: RunClass)
    requires Collapsed(s, k)
    ensures Collapse(s, k) == s
    decreases |s|
  {
    if s != [] {
      CollapsedSlice(s, 1, |s|, k);
      if InClass(k, s[0]) {
        assert DropRun(s[1..], k) == s[1..];
      }
      CollapseFixesCollapsed(s[1..], k);
    }
  }

  /** The three classes are pairwise disjoint. */
  lemma ClassesDisjoint(k: RunClass, other: RunClass, c: char)
    requires k != other && InClass(k, c)
    ensures !InClass(other, c)
  {
  }

  /** Collapsing one class keeps another class collapsed. */
  lemma {:induction false} CollapseKeepsCollapsed(s: string, k: RunClass, other: RunClass)
    requires k != other && Collapsed(s, other)
    ensures Collapsed(Collapse(s, k), other)
    decreases |s|
  {
    if s != [] {
      var rest := Rest(s, k);
      CollapsedSlice(s, |s| - |rest|, |s|, other);
      CollapseKeepsCollapsed(rest, k, other);
      HeadKeepsCollapsed(s, k, other);
    }
  }

  /** The step of `CollapseKeepsCollapsed`: the first character joins a collapsed remainder. */
  lemma HeadKeepsCollapsed(s: string, k: RunClass, other: RunClass)
    requires k != other && s != [] && Collapsed(s, other)
    requires Collapsed(Collapse(Rest(s, k), k), other)
    ensures Collapsed(Collapse(s, k), other)
  {
    var rest := Rest(s, k);
    var t := Collapse(rest, k);
    var h := Collapse(s, k)[0];
    CollapseUnfold(s, k);
    if InClass(k, s[0]) {
      ClassesDisjoint(k, other, h);
    } else if t != [] && InClass(other, s[0]) {
      assert rest == s[1..];
      if InClass(k, s[1]) {
        ClassesDisjoint(k, other, Rep(k));
      } else {
        assert t[0] == s[1];
      }
    }
    CollapsedConcat([h], t, other);
  }

  // ---------------------------------------------------------------------------
  // Substrings
  // ---------------------------------------------------------------------------

  predicate IsPrefix(p: string, t: string) {
    |p| <= |t| && t[..|p|] == p
  }

  /** `p` occurs somewhere in `t`. */
  predicate Contains(t: string, p: string)
    decreases |t|
  {
    IsPrefix(p, t) || (t != [] && Contains(t[1..], p))
  }

  lemma {:induction false} ContainsInSuffix(t: string, j: nat, p: string)
    requires j <= |t| && Contains(t[j..], p)
    ensures Contains(t, p)
    decreases j
  {
    if j > 0 {
      assert t[1..][j - 1..] == t[j..];
      ContainsInSuffix(t[1..], j - 1, p);
    }
  }

  lemma {:induction false} ContainsInPrefix(t: string, n: nat, p: string)
    requires n <= |t| && Contains(t[..n], p)
    ensures Contains(t, p)
    decreases n
  {
    if !IsPrefix(p, t[..n]) {
      assert t[..n][1..] == t[1..][..n - 1];
      ContainsInPrefix(t[1..], n - 1, p);
    }
  }

  lemma ContainsLength(t: string, p: string)
    requires Contains(t, p)
    ensures |p| <= |t|
    decreases |t|
  {
  }

  /** A string without any occurrence of `p` after collapsing had none of it before. */
  lemma {:induction false} PrefixThroughCollapse(p: string, s: string, k: RunClass)
    requires p != [] && forall c :: c in p ==> !InClass(k, c)
    requires IsPrefix(p, Collapse(s, k))
    ensures IsPrefix(p, s)
    decreases |s|
  {
    var t := Collapse(s, k);
    assert p[0] in p && t[0] == p[0];
    assert !InClass(k, s[0]) && s[0] == p[0];
    if |p| > 1 {
      assert t[1..] == Collapse(s[1..], k);
      assert t[1..][..|p| - 1] == p[1..];
      forall c | c in p[1..] ensures !InClass(k, c) {
        assert c in p;
      }
      PrefixThroughCollapse(p[1..], s[1..], k);
      assert s[..|p|] == [s[0]] + s[1..][..|p| - 1];
    }
  }

  lemma {:induction false} ContainsThroughCollapse(s: string, k: RunClass, p: string)
    requires p != [] && forall c :: c in p ==> !InClass(k, c)
    requires Contains(Collapse(s, k), p)
    ensures Contains(s, p)
    decreases |s|
  {
    var t := Collapse(s, k);
    assert p[0] in p;
    if IsPrefix(p, t) {
      PrefixThroughCollapse(p, s, k);
    } else if InClass(k, s[0]) {
      var d := DropRun(s[1..], k);
      assert t[1..] == Collapse(d, k);
      ContainsThroughCollapse(d, k, p);
      ContainsInSuffix(s, |s| - |d|, p);
    } else {
      assert t[1..] == Collapse(s[1..], k);
      ContainsThroughCollapse(s[1..], k, p);
    }
  }

  // ---------------------------------------------------------------------------
  // Global literal replacement
  // ---------------------------------------------------------------------------

  /** `s.replace(new RegExp(key, 'g'), e)` for a key without regular-expression
      metacharacters: matches are found left to right and do not overlap. */
  function ReplaceAll(s: string, key: string, e: string): string
    requires key != []
    decreases |s|
  {
    if s == [] then []
    else if IsPrefix(key, s) then e + ReplaceAll(s[|key|..], key, e)
    else [s[0]] + ReplaceAll(s[1..], key, e)
  }

  /** A tail of a contraction: it ends in `t`, has no other `t`, and, when it
      has two characters or more, an apostrophe just before that `t`. */
  predicate TailShape(q: string) {
    && |q| >= 1
    && q[|q| - 1] == 't'
    && (forall i :: 0 <= i < |q| - 1 ==> q[i] != 't')
    && (|q| >= 2 ==> q[|q| - 2] == '\'')
  }

  /** A contraction key: `...n't`, with no other `t`. */
  predicate KeyShape(key: string) {
    |key| >= 2 && TailShape(key)
  }

  /** An expansion: `... not` or `cannot`, whose only `t` is its last character. */
  predicate ExpansionShape(e: string) {
    && |e| >= 2
    && e[|e| - 1] == 't'
    && e[|e| - 2] != '\''
    && (forall i :: 0 <= i < |e| - 1 ==> e[i] != 't')
  }

  /** A contraction tail cannot start inside an expansion. */
  lemma NotPrefixFromExpansion(q: string, e: string, i: nat, z: string)
    requires TailShape(q) && ExpansionShape(e)
    requires i < |e| && (i == 0 || |q| >= 2)
    ensures !IsPrefix(q, e[i..] + z)
  {
    var w := e[i..] + z;
    var m := |e| - 1 - i;
    if |q| <= |w| {
      var j := if |q| - 1 < m then |q| - 1 else if |q| - 1 == m then |q| - 2 else m;
      assert w[j] == e[i + j];
      assert q[j] != w[j];
    }
  }

  lemma {:induction false} ContainsSkipsExpansion(e: string, i: nat, z: string, key: string)
    requires KeyShape(key) && ExpansionShape(e) && i <= |e|
    requires Contains(e[i..] + z, key)
    ensures Contains(z, key)
    decreases |e| - i
  {
    if i == |e| {
      assert e[i..] + z == z;
    } else {
      NotPrefixFromExpansion(key, e, i, z);
      assert (e[i..] + z)[1..] == e[i + 1..] + z;
      ContainsSkipsExpansion(e, i + 1, z, key);
    }
  }

  lemma {:induction false} PrefixThroughReplace(q: string, u: string, key: string, e: string)
    requires key != [] && TailShape(q) && ExpansionShape(e)
    requires IsPrefix(q, ReplaceAll(u, key, e))
    ensures IsPrefix(q, u)
    decreases |u|
  {
    if u == [] {
    } else if IsPrefix(key, u) {
      assert e[0..] == e;
      NotPrefixFromExpansion(q, e, 0, ReplaceAll(u[|key|..], key, e));
    } else if |q| > 1 {
      var r := ReplaceAll(u, key, e);
      assert r[1..] == ReplaceAll(u[1..], key, e);
      PrefixThroughReplace(q[1..], u[1..], key, e);
    }
  }

  /** Replacing one contraction creates no occurrence of any contraction. */
  lemma {:induction false} ContainsThroughReplace(s: string, key: string, e: string, k: string)
    requires key != [] && KeyShape(k) && ExpansionShape(e)
    requires Contains(ReplaceAll(s, key, e), k)
    ensures Contains(s, k)
    decreases |s|
  {
    var r := ReplaceAll(s, key, e);
    if s == [] {
    } else if IsPrefix(key, s) {
      var rest := ReplaceAll(s[|key|..], key, e);
      assert e[0..] + rest == r;
      ContainsSkipsExpansion(e, 0, rest, k);
      ContainsThroughReplace(s[|key|..], key, e, k);
      ContainsInSuffix(s, |key|, k);
    } else if IsPrefix(k, r) {
      assert r[1..] == ReplaceAll(s[1..], key, e);
      PrefixThroughReplace(k[1..], s[1..], key, e);
    } else {
      assert r[1..] == ReplaceAll(s[1..], key, e);
      ContainsThroughReplace(s[1..], key, e, k);
    }
  }

  /** No occurrence of the replaced contraction survives. */
  lemma {:induction false} ReplaceRemovesKey(s: string, key: string, e: string)
    requires KeyShape(key) && ExpansionShape(e)
    ensures !Contains(ReplaceAll(s, key, e), key)
    decreases |s|
  {
    var r := ReplaceAll(s, key, e);
    if s == [] {
    } else if IsPrefix(key, s) {
      var rest := ReplaceAll(s[|key|..], key, e);
      assert e[0..] + rest == r;
      ReplaceRemovesKey(s[|key|..], key, e);
      if Contains(r, key) {
        ContainsSkipsExpansion(e, 0, rest, key);
      }
    } else {
      assert r[1..] == ReplaceAll(s[1..], key, e);
      ReplaceRemovesKey(s[1..], key, e);
      if IsPrefix(key, r) {
        PrefixThroughReplace(key[1..], s[1..], key, e);
      }
    }
  }

  /** A text without the key is left as it is. */
  lemma {:induction false} ReplaceFixesKeyFree(s: string, key: string, e: string)
    requires key != [] && !Contains(s, key)
    ensures ReplaceAll(s, key, e) == s
    decreases |s|
  {
    if s != [] {
      ReplaceFixesKeyFree(s[1..], key, e);
    }
  }

  lemma {:induction false} ReplaceChars(s: string, key: string, e: string)
    requires key != []
    ensures forall c :: c in ReplaceAll(s, key, e) ==> c in s || c in e
    decreases |s|
  {
    if s == [] {
    } else if IsPrefix(key, s) {
      ReplaceChars(s[|key|..], key, e);
      forall c | c in s[|key|..] ensures c in s {
        var i :| 0 <= i < |s| - |key| && s[|key|..][i] == c;
        assert s[|key| + i] == c;
      }
    } else {
      ReplaceChars(s[1..], key, e);
    }
  }

  lemma {:induction false} ReplaceEnds(s: string, key: string, e: string)
    requires key != [] && e != [] && s != []
    ensures ReplaceAll(s, key, e) != []
    ensures ReplaceAll(s, key, e)[0] in {s[0], e[0]}
    ensures ReplaceAll(s, key, e)[|ReplaceAll(s, key, e)| - 1] in {s[|s| - 1], e[|e| - 1]}
    decreases |s|
  {
    if IsPrefix(key, s) {
      if |s| > |key| {
        ReplaceEnds(s[|key|..], key, e);
      }
    } else if |s| > 1 {
      ReplaceEnds(s[1..], key, e);
    }
  }

  /** Replacing by a text whose ends are not in the class keeps the class collapsed. */
  lemma {:induction false} ReplaceKeepsCollapsed(s: string, key: string, e: string, k: RunClass)
    requires key != [] && e != [] && Collapsed(s, k) && Collapsed(e, k)
    requires !InClass(k, e[0]) && !InClass(k, e[|e| - 1])
    ensures Collapsed(ReplaceAll(s, key, e), k)
    decreases |s|
  {
    if s == [] {
    } else if IsPrefix(key, s) {
      CollapsedSlice(s, |key|, |s|, k);
      ReplaceKeepsCollapsed(s[|key|..], key, e, k);
      CollapsedConcat(e, ReplaceAll(s[|key|..], key, e), k);
    } else {
      CollapsedSlice(s, 1, |s|, k);
      ReplaceKeepsCollapsed(s[1..], key, e, k);
      if |s| > 1 {
        ReplaceEnds(s[1..], key, e);
      }
      CollapsedConcat([s[0]], ReplaceAll(s[1..], key, e), k);
    }
  }

  // ---------------------------------------------------------------------------
  // The contraction table
  // ---------------------------------------------------------------------------

  predicate IsLowerLetter(c: char) {
    'a' <= c <= 'z'
  }

  /** A key is made of lower-case letters and apostrophes. */
  predicate KeyChars(key: string) {
    forall i :: 0 <= i < |key| ==> IsLowerLetter(key[i]) || key[i] == '\''
  }

  /** An expansion is lower-case words separated by single spaces. */
  predicate Words(e: string) {
    && |e| >= 1 && IsLowerLetter(e[0]) && IsLowerLetter(e[|e| - 1])
    && (forall i :: 0 <= i < |e| ==> IsLowerLetter(e[i]) || e[i] == ' ')
    && (forall i :: 0 < i < |e| && e[i] == ' ' ==> e[i - 1] != ' ')
  }

  predicate EntryFits(entry: (string, string)) {
    KeyShape(entry.0) && KeyChars(entry.0) && ExpansionShape(entry.1) && Words(entry.1)
  }

  predicate TableFits(t: seq<(string, string)>) {
    forall i :: 0 <= i < |t| ==> EntryFits(t[i])
  }

  lemma ContractionsFit()
    ensures TableFits(Contractions)
  {
    EntriesFitFrom0();
    EntriesFitFrom3();
    EntriesFitFrom6();
    EntriesFitFrom9();
    EntriesFitFrom12();
  }

  lemma EntriesFitFrom0()
    ensures forall i :: 0 <= i < 3 ==> EntryFits(Contractions[i])
  {
    assert EntryFits(("don't", "do not"));
    assert EntryFits(("won't", "will not"));
    assert EntryFits(("can't", "cannot"));
  }

  lemma EntriesFitFrom3()
    ensures forall i :: 3 <= i < 6 ==> EntryFits(Contractions[i])
  {
    assert EntryFits(("isn't", "is not"));
    assert EntryFits(("aren't", "are not"));
    assert EntryFits(("wasn't", "was not"));
  }

  lemma EntriesFitFrom6()
    ensures forall i :: 6 <= i < 9 ==> EntryFits(Contractions[i])
  {
    assert EntryFits(("weren't", "were not"));
    assert EntryFits(("hasn't", "has not"));
    assert EntryFits(("haven't", "have not"));
  }

  lemma EntriesFitFrom9()
    ensures forall i :: 9 <= i < 12 ==> EntryFits(Contractions[i])
  {
    assert EntryFits(("hadn't", "had not"));
    assert EntryFits(("doesn't", "does not"));
    assert EntryFits(("didn't", "did not"));
  }

  lemma EntriesFitFrom12()
    ensures forall i :: 12 <= i < 15 ==> EntryFits(Contractions[i])
  {
    assert EntryFits(("shouldn't", "should not"));
    assert EntryFits(("wouldn't", "would not"));
    assert EntryFits(("couldn't", "could not"));
  }

  /** What the proofs use of a key: no punctuation of either collapsed class. */
  lemma KeyFacts(key: string, k: RunClass)
    requires KeyChars(key) && k != Whitespace
    ensures forall c :: c in key ==> !InClass(k, c)
  {
  }

  /** What the proofs use of an expansion: lower case, single-spaced, no
      punctuation, and neither end is white space. */
  lemma ExpansionFacts(e: string, k: RunClass)
    requires Words(e) && e != []
    ensures NoUpper(e)
    ensures Collapsed(e, k) && !InClass(k, e[0]) && !InClass(k, e[|e| - 1])
  {
    forall c | c in e ensures !IsUpper(c) {
      var i :| 0 <= i < |e| && e[i] == c;
    }
    forall i | 0 <= i < |e| && InClass(k, e[i])
      ensures e[i] == Rep(k) && (i + 1 < |e| ==> !InClass(k, e[i + 1]))
    {
    }
  }

  /** No key of table `t` occurs in `r`. */
  predicate KeysAbsent(r: string, t: seq<(string, string)>) {
    forall j :: 0 <= j < |t| ==> !Contains(r, t[j].0)
  }

  /** The loop over the contraction table from entry `i` on, in table order. */
  function ExpandFrom(s: string, i: nat): string
    requires i <= |Contractions|
    decreases |Contractions| - i
  {
    if i == |Contractions| then s
    else
      ContractionsFit();
      assert EntryFits(Contractions[i]);
      ExpandFrom(ReplaceAll(s, Contractions[i].0, Contractions[i].1), i + 1)
  }

  lemma {:induction false} ExpandFromIs(s: string, i: nat)
    requires i <= |Contractions| && TableFits(Contractions[i..])
    ensures ExpandFrom(s, i) == ExpandContractions(s, Contractions[i..])
    decreases |Contractions| - i
  {
    if i < |Contractions| {
      SuffixStep(Contractions, i);
      TableFitsSuffix(Contractions[i..], 1);
      ExpandFromIs(ReplaceAll(s, Contractions[i].0, Contractions[i].1), i + 1);
    }
  }

  /** Every suffix of a table that fits fits. */
  lemma TableFitsSuffix(t: seq<(string, string)>, i: nat)
    requires TableFits(t) && i <= |t|
    ensures TableFits(t[i..])
  {
    forall j | 0 <= j < |t| - i ensures EntryFits(t[i..][j]) {
      assert t[i..][j] == t[i + j];
    }
  }

  lemma SuffixStep(t: seq<(string, string)>, i: nat)
    requires i < |t|
    ensures t[i..][0] == t[i] && t[i..][1..] == t[i + 1..]
  {
  }

  /** The table loop is the contraction loop over the whole table. */
  lemma ExpandFromIsExpand(s: string)
    ensures TableFits(Contractions)
    ensures ExpandFrom(s, 0) == ExpandContractions(s, Contractions)
  {
    ContractionsFit();
    assert Contractions[0..] == Contractions;
    ExpandFromIs(s, 0);
  }

  /** The contraction loop: each key, in table order, replaced everywhere by its expansion. */
  function ExpandContractions(s: string, t: seq<(string, string)>): string
    requires TableFits(t)
    decreases |t|
  {
    if t == [] then s else ExpandContractions(ReplaceAll(s, t[0].0, t[0].1), t[1..])
  }

  lemma {:induction false} ExpandKeepsAbsent(s: string, t: seq<(string, string)>, k: string)
    requires TableFits(t) && KeyShape(k) && Contains(ExpandContractions(s, t), k)
    ensures Contains(s, k)
    decreases |t|
  {
    if t != [] {
      assert EntryFits(t[0]);
      ExpandKeepsAbsent(ReplaceAll(s, t[0].0, t[0].1), t[1..], k);
      ContainsThroughReplace(s, t[0].0, t[0].1, k);
    }
  }

  /** After the loop no key of the table occurs. */
  lemma {:induction false} ExpandRemovesKeys(s: string, t: seq<(string, string)>)
    requires TableFits(t)
    ensures KeysAbsent(ExpandContractions(s, t), t)
    decreases |t|
  {
    if t != [] {
      assert EntryFits(t[0]);
      var s' := ReplaceAll(s, t[0].0, t[0].1);
      ExpandRemovesKeys(s', t[1..]);
      ReplaceRemovesKey(s, t[0].0, t[0].1);
      if Contains(ExpandContractions(s', t[1..]), t[0].0) {
        ExpandKeepsAbsent(s', t[1..], t[0].0);
      }
      forall j | 1 <= j < |t| ensures !Contains(ExpandContractions(s, t), t[j].0) {
        assert t[j] == t[1..][j - 1];
      }
    }
  }

  lemma {:induction false} ExpandFixesKeyFree(s: string, t: seq<(string, string)>)
    requires TableFits(t)
    requires KeysAbsent(s, t)
    ensures ExpandContractions(s, t) == s
    decreases |t|
  {
    if t != [] {
      assert EntryFits(t[0]);
      ReplaceFixesKeyFree(s, t[0].0, t[0].1);
      forall j | 0 <= j < |t| - 1 ensures !Contains(s, t[1..][j].0) {
        assert t[1..][j] == t[j + 1];
      }
      ExpandFixesKeyFree(s, t[1..]);
    }
  }

  lemma {:induction false} ExpandKeepsCollapsed(s: string, t: seq<(string, string)>, k: RunClass)
    requires TableFits(t) && Collapsed(s, k)
    ensures Collapsed(ExpandContractions(s, t), k)
    decreases |t|
  {
    if t != [] {
      var (key, e) := t[0];
      assert EntryFits(t[0]);
      ExpansionFacts(e, k);
      ReplaceKeepsCollapsed(s, key, e, k);
      ExpandKeepsCollapsed(ReplaceAll(s, key, e), t[1..], k);
    }
  }

  lemma {:induction false} ExpandKeepsNoUpper(s: string, t: seq<(string, string)>)
    requires TableFits(t) && NoUpper(s)
    ensures NoUpper(ExpandContractions(s, t))
    decreases |t|
  {
    if t != [] {
      assert EntryFits(t[0]);
      ExpansionFacts(t[0].1, Whitespace);
      ReplaceChars(s, t[0].0, t[0].1);
      ExpandKeepsNoUpper(ReplaceAll(s, t[0].0, t[0].1), t[1..]);
    }
  }

  /** The loop keeps a text that neither starts nor ends with white space that way. */
  lemma {:induction false} ExpandKeepsEnds(s: string, t: seq<(string, string)>)
    requires TableFits(t) && s != [] && !IsSpace(s[0]) && !IsSpace(s[|s| - 1])
    ensures var r := ExpandContractions(s, t); r != [] && !IsSpace(r[0]) && !IsSpace(r[|r| - 1])
    decreases |t|
  {
    if t != [] {
      var (key, e) := t[0];
      assert EntryFits(t[0]);
      assert IsLowerLetter(e[0]) && IsLowerLetter(e[|e| - 1]);
      ReplaceEnds(s, key, e);
      var s' := ReplaceAll(s, key, e);
      assert !IsSpace(s'[0]) && !IsSpace(s'[|s'| - 1]);
      ExpandKeepsEnds(s', t[1..]);
    }
  }

  // ---------------------------------------------------------------------------
  // preprocessText
  // ---------------------------------------------------------------------------

  /** No key of the contraction table occurs. */
  predicate KeyFree(r: string) {
    KeysAbsent(r, Contractions)
  }

  /** `substring(0, 1000)` when longer than 1000 characters. */
  function Truncate(s: string): (r: string)
    ensures |r| <= MaxLength && |r| <= |s|
    ensures r == s[..|r|]
    ensures |s| <= MaxLength ==> r == s
    ensures |s| > MaxLength ==> |r| == MaxLength
  {
    if |s| > MaxLength then s[..MaxLength] else s
  }

  /** The pipeline a non-empty string goes through, step by step as in `preprocessText`. */
  function Canonicalize(text: string): string {
    var lowered := ToLower(text);
    var spaced := Trim(Collapse(lowered, Whitespace));
    var expanded := ExpandFrom(spaced, 0);
    var terminated := Collapse(expanded, Terminator);
    var separated := Collapse(terminated, Separator);
    Truncate(separated)
  }

  /** `preprocessText`: `None` stands for a missing or non-string argument. */
  function PreprocessText(text: Option<string>): (r: string)
    ensures text.None? || text == Some("") ==> r == ""
    ensures |r| <= MaxLength
  {
    if text.None? || text.value == "" then "" else Canonicalize(text.value)
  }

  /** The normal form every output is in. */
  predicate Canonical(r: string) {
    |r| <= MaxLength && Normal(r)
  }

  /** The normal form apart from the length bound. */
  predicate Normal(r: string) {
    && NoUpper(r)
    && Collapsed(r, Whitespace) && Collapsed(r, Terminator) && Collapsed(r, Separator)
    && (r != [] ==> !IsSpace(r[0]))
    && KeyFree(r)
  }

  lemma NormalPrefix(r: string, n: nat)
    requires Normal(r) && n <= |r|
    ensures Normal(r[..n])
  {
    CollapsedSlice(r, 0, n, Whitespace);
    CollapsedSlice(r, 0, n, Terminator);
    CollapsedSlice(r, 0, n, Separator);
    assert r[0..n] == r[..n];
    forall c | c in r[..n] ensures !IsUpper(c) {
      var i :| 0 <= i < n && r[..n][i] == c;
      assert r[i] in r;
    }
    forall j | 0 <= j < |Contractions| ensures !Contains(r[..n], Contractions[j].0) {
      if Contains(r[..n], Contractions[j].0) {
        ContainsInPrefix(r, n, Contractions[j].0);
      }
    }
  }

  lemma NoUpperSlice(s: string, a: nat, b: nat)
    requires a <= b <= |s| && NoUpper(s)
    ensures NoUpper(s[a..b])
  {
    forall c | c in s[a..b] ensures !IsUpper(c) {
      var i :| 0 <= i < b - a && s[a..b][i] == c;
      assert s[a + i] in s;
    }
  }

  lemma NoUpperCollapse(s: string, k: RunClass)
    requires NoUpper(s)
    ensures NoUpper(Collapse(s, k))
  {
    CollapseChars(s, k);
  }

  /** Lower case, single-spaced, and no white space at either end. */
  predicate Spaced(x: string) {
    && NoUpper(x) && Collapsed(x, Whitespace)
    && (x != [] ==> !IsSpace(x[0]) && !IsSpace(x[|x| - 1]))
  }

  /** Lower-casing, collapsing white space and trimming. */
  lemma SpacingStage(text: string)
    ensures Spaced(Trim(Collapse(ToLower(text), Whitespace)))
  {
    var lowered := ToLower(text);
    ToLowerHasNoUpper(text);
    var collapsed := Collapse(lowered, Whitespace);
    NoUpperCollapse(lowered, Whitespace);
    CollapseIsCollapsed(lowered, Whitespace);
    TrimKeepsSpacing(collapsed);
  }

  lemma TrimKeepsSpacing(collapsed: string)
    requires NoUpper(collapsed) && Collapsed(collapsed, Whitespace)
    ensures Spaced(Trim(collapsed))
  {
    var spaced := Trim(collapsed);
    var a := |collapsed| - |TrimStart(collapsed)|;
    CollapsedSlice(collapsed, a, a + |spaced|, Whitespace);
    NoUpperSlice(collapsed, a, a + |spaced|);
  }

  /** The contraction loop keeps the spacing and leaves no key. */
  lemma ExpansionStage(spaced: string, t: seq<(string, string)>)
    requires TableFits(t) && Spaced(spaced)
    ensures Spaced(ExpandContractions(spaced, t))
    ensures KeysAbsent(ExpandContractions(spaced, t), t)
  {
    ExpandRemovesKeys(spaced, t);
    ExpandKeepsNoUpper(spaced, t);
    ExpandKeepsCollapsed(spaced, t, Whitespace);
    if spaced != [] {
      ExpandKeepsEnds(spaced, t);
    } else {
      ExpandFixesKeyFree(spaced, t);
    }
  }

  /** Collapsing punctuation keeps everything established so far. */
  lemma PunctuationStage(expanded: string, t: seq<(string, string)>)
    requires TableFits(t) && Spaced(expanded) && KeysAbsent(expanded, t)
    ensures var separated := Collapse(Collapse(expanded, Terminator), Separator);
      && Spaced(separated) && KeysAbsent(separated, t)
      && Collapsed(separated, Terminator) && Collapsed(separated, Separator)
  {
    var terminated := Collapse(expanded, Terminator);
    CollapseStage(expanded, Terminator, Separator);
    CollapseStage(terminated, Separator, Terminator);
    PunctuationKeys(expanded, t);
  }

  /** Collapsing one punctuation class keeps the spacing and the other class collapsed. */
  lemma CollapseStage(x: string, k: RunClass, other: RunClass)
    requires k != Whitespace && other != Whitespace && k != other && Spaced(x)
    ensures Spaced(Collapse(x, k)) && Collapsed(Collapse(x, k), k)
    ensures Collapsed(x, other) ==> Collapsed(Collapse(x, k), other)
  {
    NoUpperCollapse(x, k);
    CollapseIsCollapsed(x, k);
    CollapseKeepsCollapsed(x, k, Whitespace);
    if Collapsed(x, other) {
      CollapseKeepsCollapsed(x, k, other);
    }
    if x != [] {
      CollapseLast(x, k);
    }
  }

  /** No contraction appears through the punctuation stages. */
  lemma PunctuationKeys(expanded: string, t: seq<(string, string)>)
    requires TableFits(t) && KeysAbsent(expanded, t)
    ensures KeysAbsent(Collapse(Collapse(expanded, Terminator), Separator), t)
  {
    forall j | 0 <= j < |t| ensures !Contains(Collapse(Collapse(expanded, Terminator), Separator), t[j].0) {
      KeyAbsentThroughPunctuation(expanded, t[j].0);
    }
  }

  lemma KeyAbsentThroughPunctuation(expanded: string, key: string)
    requires KeyChars(key) && !Contains(expanded, key)
    ensures !Contains(Collapse(Collapse(expanded, Terminator), Separator), key)
  {
    var terminated := Collapse(expanded, Terminator);
    KeyFacts(key, Terminator);
    KeyFacts(key, Separator);
    if Contains(Collapse(terminated, Separator), key) {
      ContainsThroughCollapse(terminated, Separator, key);
      ContainsThroughCollapse(expanded, Terminator, key);
    }
  }

  /** The text after the collapsing stages, before the cut. */
  lemma PipelineStages(text: string, t: seq<(string, string)>)
    requires TableFits(t)
    ensures var separated := Collapse(Collapse(ExpandContractions(Trim(Collapse(ToLower(text), Whitespace)), t), Terminator), Separator);
      && Spaced(separated) && KeysAbsent(separated, t)
      && Collapsed(separated, Terminator) && Collapsed(separated, Separator)
  {
    var spaced := Trim(Collapse(ToLower(text), Whitespace));
    SpacingStage(text);
    ExpansionStage(spaced, t);
    PunctuationStage(ExpandContractions(spaced, t), t);
  }

  /** The cut to `MaxLength` keeps the normal form. */
  lemma CutStage(separated: string)
    requires Spaced(separated) && KeyFree(separated)
    requires Collapsed(separated, Terminator) && Collapsed(separated, Separator)
    ensures Canonical(Truncate(separated))
    ensures var r := Truncate(separated); r != [] && IsSpace(r[|r| - 1]) ==> |r| == MaxLength
  {
    NormalPrefix(separated, |Truncate(separated)|);
  }

  /** Every output of the pipeline is in normal form; a trailing space can only come from the cut. */
  lemma CanonicalizeIsCanonical(text: string)
    ensures Canonical(Canonicalize(text))
    ensures var r := Canonicalize(text); r != [] && IsSpace(r[|r| - 1]) ==> |r| == MaxLength
  {
    ExpandFromIsExpand(Trim(Collapse(ToLower(text), Whitespace)));
    var separated := Collapse(Collapse(ExpandContractions(Trim(Collapse(ToLower(text), Whitespace)), Contractions), Terminator), Separator);
    PipelineStages(text, Contractions);
    CutStage(separated);
  }
  /** Lower-casing, collapsing white space and trimming leave a spaced text as it is. */
  lemma FrontFixes(r: string)
    requires Spaced(r)
    ensures Trim(Collapse(ToLower(r), Whitespace)) == r
  {
    ToLowerFixesLowerCase(r);
    CollapseFixesCollapsed(r, Whitespace);
    TrimFixesTrimmed(r);
  }

  /** The contraction loop, the punctuation collapses and the cut leave a
      key-free, collapsed, short text as it is. */
  lemma BackFixes(r: string, t: seq<(string, string)>)
    requires TableFits(t) && KeysAbsent(r, t) && |r| <= MaxLength
    requires Collapsed(r, Terminator) && Collapsed(r, Separator)
    ensures Truncate(Collapse(Collapse(ExpandContractions(r, t), Terminator), Separator)) == r
  {
    ExpandFixesKeyFree(r, t);
    CollapseFixesCollapsed(r, Terminator);
    CollapseFixesCollapsed(r, Separator);
  }

  /** Every stage leaves a text in normal form without a trailing space as it is. */
  lemma PipelineFixes(r: string, t: seq<(string, string)>)
    requires TableFits(t) && Spaced(r) && KeysAbsent(r, t) && |r| <= MaxLength
    requires Collapsed(r, Terminator) && Collapsed(r, Separator)
    ensures Truncate(Collapse(Collapse(ExpandContractions(Trim(Collapse(ToLower(r), Whitespace)), t), Terminator), Separator)) == r
  {
    FrontFixes(r);
    BackFixes(r, t);
  }

  /** A text in normal form that does not end in white space is a fixed point. */
  lemma CanonicalizeFixesNormalForm(r: string)
    requires Canonical(r) && (r == [] || !IsSpace(r[|r| - 1]))
    ensures Canonicalize(r) == r
  {
    ExpandFromIsExpand(Trim(Collapse(ToLower(r), Whitespace)));
    PipelineFixes(r, Contractions);
  }

  /** The front stages remove a single trailing white-space character. */
  lemma FrontDropsTrailingSpace(r: string)
    requires NoUpper(r) && Collapsed(r, Whitespace)
    requires |r| >= 2 && !IsSpace(r[0]) && IsSpace(r[|r| - 1])
    ensures Trim(Collapse(ToLower(r), Whitespace)) == r[..|r| - 1]
  {
    assert r[|r| - 1] == Rep(Whitespace);
    ToLowerFixesLowerCase(r);
    CollapseFixesCollapsed(r, Whitespace);
    TrimDropsTrailingSpace(r);
  }

  lemma KeysAbsentPrefix(r: string, n: nat, t: seq<(string, string)>)
    requires KeysAbsent(r, t) && n <= |r|
    ensures KeysAbsent(r[..n], t)
  {
    forall j | 0 <= j < |t| ensures !Contains(r[..n], t[j].0) {
      if Contains(r[..n], t[j].0) {
        ContainsInPrefix(r, n, t[j].0);
      }
    }
  }

  /** A text in normal form that ends in one white-space character loses just that character. */
  lemma PipelineDropsTrailingSpace(r: string, t: seq<(string, string)>)
    requires TableFits(t) && Normal(r) && KeysAbsent(r, t) && |r| <= MaxLength
    requires |r| >= 2 && IsSpace(r[|r| - 1])
    ensures Truncate(Collapse(Collapse(ExpandContractions(Trim(Collapse(ToLower(r), Whitespace)), t), Terminator), Separator)) == r[..|r| - 1]
  {
    FrontDropsTrailingSpace(r);
    NormalPrefix(r, |r| - 1);
    KeysAbsentPrefix(r, |r| - 1, t);
    BackFixes(r[..|r| - 1], t);
  }

  lemma CanonicalizeDropsTrailingSpace(r: string)
    requires Canonical(r) && |r| >= 2 && IsSpace(r[|r| - 1])
    ensures Canonicalize(r) == r[..|r| - 1]
  {
    ExpandFromIsExpand(Trim(Collapse(ToLower(r), Whitespace)));
    PipelineDropsTrailingSpace(r, Contractions);
  }

  /** Every result of `preprocessText` is in normal form. */
  lemma PreprocessTextIsCanonical(text: Option<string>)
    ensures Canonical(PreprocessText(text))
    ensures var r := PreprocessText(text); r != [] && IsSpace(r[|r| - 1]) ==> |r| == MaxLength
  {
    if text.Some? && text.value != "" {
      CanonicalizeIsCanonical(text.value);
    }
  }

  /** A collapsed text never holds the replacement character twice in a row. */
  lemma CollapsedNoDoubles(r: string, k: RunClass)
    requires Collapsed(r, k)
    ensures forall i :: 0 <= i < |r| - 1 ==> !(r[i] == Rep(k) && r[i + 1] == Rep(k))
  {
    forall i | 0 <= i < |r| - 1 && r[i] == Rep(k) ensures r[i + 1] != Rep(k) {
      assert InClass(k, r[i]);
    }
  }

  /** The normal form, spelled out character by character. */
  lemma CanonicalSpelledOut(r: string)
    requires Canonical(r)
    ensures |r| <= MaxLength
    ensures forall i :: 0 <= i < |r| ==> !IsUpper(r[i])
    ensures forall i :: 0 <= i < |r| && IsSpace(r[i]) ==> r[i] == ' '
    ensures forall i :: 0 <= i < |r| ==> r[i] != '!' && r[i] != '?' && r[i] != ';' && r[i] != ':'
    ensures forall i :: 0 <= i < |r| - 1 ==> !(r[i] == ' ' && r[i + 1] == ' ')
    ensures forall i :: 0 <= i < |r| - 1 ==> !(r[i] == '.' && r[i + 1] == '.')
    ensures forall i :: 0 <= i < |r| - 1 ==> !(r[i] == ',' && r[i + 1] == ',')
    ensures r != [] ==> r[0] != ' '
  {
    forall i | 0 <= i < |r| ensures !IsUpper(r[i]) {
      assert r[i] in r;
    }
    forall i | 0 <= i < |r| ensures r[i] != '!' && r[i] != '?' && r[i] != ';' && r[i] != ':' {
      assert InClass(Terminator, r[i]) ==> r[i] == '.';
      assert InClass(Separator, r[i]) ==> r[i] == ',';
    }
    CollapsedNoDoubles(r, Whitespace);
    CollapsedNoDoubles(r, Terminator);
    CollapsedNoDoubles(r, Separator);
  }

  /** A text in normal form that does not end in a space is a fixed point of `preprocessText`. */
  lemma PreprocessFixesNormalForm(r: string)
    requires Canonical(r) && (r == [] || r[|r| - 1] != ' ')
    ensures PreprocessText(Some(r)) == r
  {
    if r != [] {
      assert !IsSpace(r[|r| - 1]);
      CanonicalizeFixesNormalForm(r);
    }
  }

  /** Removing the final space of a text in normal form leaves a text in normal form without one. */
  lemma CanonicalWithoutTrailingSpace(r: string)
    requires Canonical(r) && r != [] && r[|r| - 1] == ' '
    ensures |r| >= 2 && !IsSpace(r[|r| - 2])
    ensures var u := r[..|r| - 1]; Canonical(u) && (u == [] || u[|u| - 1] != ' ')
  {
    assert r[0] != ' ';
    assert InClass(Whitespace, r[|r| - 1]);
    NormalPrefix(r, |r| - 1);
  }

  /** A text in normal form that ends in a space loses that space, and nothing else. */
  lemma PreprocessDropsTrailingSpace(r: string)
    requires Canonical(r) && r != [] && r[|r| - 1] == ' '
    ensures PreprocessText(Some(r)) == r[..|r| - 1]
    ensures var u := r[..|r| - 1]; Canonical(u) && (u == [] || u[|u| - 1] != ' ')
  {
    CanonicalWithoutTrailingSpace(r);
    CanonicalizeDropsTrailingSpace(r);
  }

  /** Preprocessing its own output changes nothing, unless the cut left a trailing space. */
  lemma PreprocessTextIdempotent(text: Option<string>)
    requires var r := PreprocessText(text); r == [] || r[|r| - 1] != ' '
    ensures PreprocessText(Some(PreprocessText(text))) == PreprocessText(text)
  {
    PreprocessTextIsCanonical(text);
    PreprocessFixesNormalForm(PreprocessText(text));
  }

  /** A trailing space left by the cut is removed by one more pass. */
  lemma PreprocessTextTrailingSpace(text: Option<string>)
    requires var r := PreprocessText(text); r != [] && r[|r| - 1] == ' '
    ensures |PreprocessText(text)| == MaxLength
    ensures PreprocessText(Some(PreprocessText(text))) == PreprocessText(text)[..MaxLength - 1]
  {
    PreprocessTextIsCanonical(text);
    PreprocessDropsTrailingSpace(PreprocessText(text));
  }

  /** Two passes reach a fixed point whatever the input. */
  lemma PreprocessTextSettles(text: Option<string>)
    ensures var twice := PreprocessText(Some(PreprocessText(text)));
      PreprocessText(Some(twice)) == twice
  {
    var r := PreprocessText(text);
    PreprocessTextIsCanonical(text);
    if r != [] && r[|r| - 1] == ' ' {
      PreprocessDropsTrailingSpace(r);
      PreprocessFixesNormalForm(r[..|r| - 1]);
    } else {
      PreprocessFixesNormalForm(r);
      PreprocessFixesNormalForm(r);
    }
  }
}
