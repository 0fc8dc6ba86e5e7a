/**
 * Exercise classification and display aliases: the ordered keyword rules that
 * put an exercise name in a muscle group, and the routine that shortens a name
 * for a button label.
 *
 * A name that is not a string (a missing cell) is `None`.
 */
module Mappings {
  import opened Wrappers
  import opened Text
  import opened Collections

  // ----- muscle-group classification -----

  /** One classification rule: the group of every name that contains one of the keywords. */
  datatype Rule = Rule(keywords: seq<string>, group: string)

  /** The rules in the order they are tried. */
  function Rules(): seq<Rule> {
    [
      Rule(["supino", "bench", "crucifixo", "crossover", "peck deck", "fly"], "Peito"),
      Rule(["remada", "puxada", "pulldown", "barra fixa", "serrote", "pullover", "row"], "Costas"),
      Rule(["agachamento", "squat", "leg press", "hack", "afundo", "lunge", "extensora", "flexora", "adutora", "abdutora"], "Pernas"),
      Rule(["desenvolvimento", "elevação lateral", "elevação frontal", "arnold", "shoulder", "militar"], "Ombros"),
      Rule(["rosca", "curl", "bíceps", "biceps"], "Bíceps"),
      Rule(["tríceps", "triceps", "paralelas", "mergulho", "pulley", "testa"], "Tríceps"),
      Rule(["glúteo", "gluteo", "hip thrust", "coice", "abdução", "elevação pélvica"], "Glúteos"),
      Rule(["panturrilha", "gemelar", "calf"], "Panturrilha"),
      Rule(["abdominal", "abs", "prancha", "crunch", "core"], "Core"),
      Rule(["esteira", "bike", "spinning", "corrida", "remador", "rower"], "Cardio")
    ]
  }

  /** The label of a name that no rule matches. */
  const Other: string := "Outros"

  /** Every label the classifier can return. */
  predicate IsGroup(g: string) {
    || g == "Peito" || g == "Costas" || g == "Pernas" || g == "Ombros" || g == "Bíceps" || g == "Tríceps"
    || g == "Glúteos" || g == "Panturrilha" || g == "Core" || g == "Cardio" || g == Other
  }

  /** Some keyword of the rule occurs in `s`. */
  predicate Matches(rule: Rule, s: string) {
    exists k :: k in rule.keywords && Contains(s, k)
  }

  /** The group of the first rule that matches `s`, or `Other` when none does. */
  function Classify(rules: seq<Rule>, s: string): (g: string)
    ensures g == Other || exists i :: 0 <= i < |rules| && rules[i].group == g
  {
    if rules == [] then Other
    else if Matches(rules[0], s) then rules[0].group
    else
      var g := Classify(rules[1..], s);
      assert g != Other ==> exists i :: 0 <= i < |rules[1..]| && rules[1..][i].group == g;
      assert forall i :: 0 <= i < |rules[1..]| ==> rules[1..][i] == rules[i + 1];
      g
  }

  /** `map_exercise_to_group`: classify the stripped, lower-cased name. */
  function MapExerciseToGroup(name: Option<string>): string {
    match name
    case None => Other
    case Some(n) => Classify(Rules(), Lower(Strip(n)))
  }

  // ----- classification lemmas -----

  /** The classifier is total: a missing name is `Outros`, and every name gets one of the eleven labels. */
  lemma ClassifierTotal(name: Option<string>)
    ensures name.None? ==> MapExerciseToGroup(name) == Other
    ensures IsGroup(MapExerciseToGroup(name))
  {
    if name.Some? {
      var g := Classify(Rules(), Lower(Strip(name.value)));
      if g != Other {
        var i :| 0 <= i < |Rules()| && Rules()[i].group == g;
        RuleGroup(i);
      }
    }
  }

  lemma RuleGroup(i: nat)
    requires i < |Rules()|
    ensures IsGroup(Rules()[i].group)
  {
    var labels := seq(|Rules()|, j requires 0 <= j < |Rules()| => Rules()[j].group);
    assert labels == ["Peito", "Costas", "Pernas", "Ombros", "Bíceps", "Tríceps", "Glúteos", "Panturrilha", "Core", "Cardio"];
    assert Rules()[i].group == labels[i];
  }

  /** First match wins: the first rule that matches decides the group. */
  lemma {:induction false} ClassifyFirstMatch(rules: seq<Rule>, s: string, i: nat)
    requires i < |rules| && Matches(rules[i], s)
    requires forall j :: 0 <= j < i ==> !Matches(rules[j], s)
    ensures Classify(rules, s) == rules[i].group
    decreases i
  {
    if i > 0 {
      assert !Matches(rules[0], s);
      ClassifyFirstMatch(rules[1..], s, i - 1);
    }
  }

  /** A name that no rule matches is `Outros`. */
  lemma {:induction false} ClassifyNoMatch(rules: seq<Rule>, s: string)
    requires forall j :: 0 <= j < |rules| ==> !Matches(rules[j], s)
    ensures Classify(rules, s) == Other
    decreases |rules|
  {
    if rules != [] {
      assert !Matches(rules[0], s);
      ClassifyNoMatch(rules[1..], s);
    }
  }

  /** Conversely, the group returned is that of a matching rule with no matching rule before it. */
  lemma {:induction false} ClassifyIsFirstMatch(rules: seq<Rule>, s: string)
    ensures || (Classify(rules, s) == Other && forall j :: 0 <= j < |rules| ==> !Matches(rules[j], s))
            || exists i :: 0 <= i < |rules| && Matches(rules[i], s) && Classify(rules, s) == rules[i].group
                 && forall j :: 0 <= j < i ==> !Matches(rules[j], s)
    decreases |rules|
  {
    if rules != [] && !Matches(rules[0], s) {
      var tail := rules[1..];
      ClassifyIsFirstMatch(tail, s);
      if !(forall j :: 0 <= j < |tail| ==> !Matches(tail[j], s)) {
        var i :| 0 <= i < |tail| && Matches(tail[i], s) && Classify(tail, s) == tail[i].group
          && forall j :: 0 <= j < i ==> !Matches(tail[j], s);
        FirstMatchInTail(rules, s, i);
      } else {
        assert forall j :: 1 <= j < |rules| ==> rules[j] == tail[j - 1];
      }
    }
  }

  /** A first match at `i` in the tail, after a head that does not match, is a first match at `i + 1`. */
  lemma FirstMatchInTail(rules: seq<Rule>, s: string, i: nat)
    requires rules != [] && !Matches(rules[0], s) && i + 1 < |rules|
    requires Matches(rules[1..][i], s) && forall j :: 0 <= j < i ==> !Matches(rules[1..][j], s)
    ensures rules[i + 1] == rules[1..][i] && Matches(rules[i + 1], s)
    ensures forall j :: 0 <= j < i + 1 ==> !Matches(rules[j], s)
  {
    assert forall j :: 1 <= j < i + 1 ==> rules[j] == rules[1..][j - 1];
  }

  /** Case and surrounding whitespace do not matter: a name classifies like its stripped, lower-cased form. */
  lemma CaseAndSpaceInsensitive(n: string)
    ensures MapExerciseToGroup(Some(n)) == MapExerciseToGroup(Some(Lower(Strip(n))))
  {
    StripLower(Strip(n));
    StripIdempotent(n);
    LowerIdempotent(Strip(n));
  }

  /**
   * The Peito rule comes first: a name with a Peito keyword is Peito whatever else
   * it contains ("Remada Supino" holds the Costas keyword "remada" too).
   */
  lemma PeitoFirst(n: string, k: string)
    requires k in Rules()[0].keywords && Contains(Lower(Strip(n)), k)
    ensures MapExerciseToGroup(Some(n)) == "Peito"
  {
    assert Matches(Rules()[0], Lower(Strip(n)));
  }

  /**
   * A name containing "rower" also contains the Costas keyword "row", which comes
   * before the Cardio rule: it is never Cardio, and it is Costas unless a Peito
   * keyword occurs in it too.
   */
  lemma RowerIsNotCardio(n: string)
    requires Contains(Lower(Strip(n)), "rower")
    ensures MapExerciseToGroup(Some(n)) in {"Peito", "Costas"}
    ensures !Matches(Rules()[0], Lower(Strip(n))) ==> MapExerciseToGroup(Some(n)) == "Costas"
  {
    var s := Lower(Strip(n));
    RowerMatchesCostas(s);
    FirstRuleGroups();
    ClassifySecondMatch(Rules(), s);
  }

  /** When the second rule matches, the group is the first rule's or the second's, the second's unless the first matches. */
  lemma ClassifySecondMatch(rules: seq<Rule>, s: string)
    requires |rules| >= 2 && Matches(rules[1], s)
    ensures Classify(rules, s) == rules[0].group || Classify(rules, s) == rules[1].group
    ensures !Matches(rules[0], s) ==> Classify(rules, s) == rules[1].group
  {
    if Matches(rules[0], s) {
      ClassifyFirstMatch(rules, s, 0);
    } else {
      ClassifyFirstMatch(rules, s, 1);
    }
  }

  lemma FirstRuleGroups()
    ensures |Rules()| == 10 && Rules()[0].group == "Peito" && Rules()[1].group == "Costas"
  {
  }

  /** "rower" contains the Costas keyword "row". */
  lemma RowerMatchesCostas(s: string)
    requires Contains(s, "rower")
    ensures Matches(Rules()[1], s)
  {
    ContainsPrefix(s, "rower", "row");
    assert "row" in Rules()[1].keywords;
  }

  // ----- display aliases -----

  /** The position of the first `c` in `s`, if any. */
  function IndexOf(s: string, c: char): (r: Option<nat>)
    ensures r.None? <==> c !in s
    ensures r.Some? ==> r.value < |s| && s[r.value] == c && c !in s[..r.value]
  {
    if s == [] then None
    else if s[0] == c then Some(0)
    else
      match IndexOf(s[1..], c)
      case None => None
      case Some(k) =>
        assert s[..k + 1] == [s[0]] + s[1..][..k];
        Some(k + 1)
  }

  /**
   * Where a leading `\s*\([^)]*\)` match ends: after a run of whitespace, a `(`
   * and everything up to the next `)`. There is none when the first character
   * after the whitespace is not `(`, or when no `)` follows it.
   */
  function SegmentEnd(s: string): (k: Option<nat>)
    ensures k.Some? ==> 1 <= k.value <= |s|
    ensures LStrip(s) == [] ==> k.None?
    ensures k.None? && s != [] && s[0] == '(' ==> ')' !in s
  {
    var t := LStrip(s);
    if t != [] && t[0] == '(' && IndexOf(t, ')').Some? then Some(|s| - |t| + IndexOf(t, ')').value + 1)
    else None
  }

  /**
   * `re.sub(r"\s*\([^)]*\)", "", s)`: scanning from the left, a run of whitespace
   * followed by `(` and everything up to the next `)` is deleted; a `(` with no
   * `)` after it, and every other character, is kept.
   */
  function RemoveParens(s: string): (r: string)
    ensures |r| <= |s|
    decreases |s|
  {
    if s == [] then []
    else
      match SegmentEnd(s)
      case Some(k) => RemoveParens(s[k..])
      case None => [s[0]] + RemoveParens(s[1..])
  }

  /** The words kept for the alias: two if they make at least six characters, else three if there are three, else all. */
  function SelectWords(s: string): string {
    var parts := Split(s);
    var two := Join(Head(parts, 2));
    if |two| >= 6 then two
    else if |parts| >= 3 then Join(Head(parts, 3))
    else s
  }

  /** Cut a string longer than `maxLen` to its first `maxLen - 1` characters, right-stripped, followed by `…`. */
  function Truncate(s: string, maxLen: int): string {
    if |s| > maxLen then RStrip(PyPrefix(s, maxLen - 1)) + "…" else s
  }

  /** `alias_name`: the short label of an exercise name. */
  function AliasName(name: Option<string>, maxLen: int): string {
    if name.None? || name.value == "" then ""
    else Truncate(SelectWords(Strip(RemoveParens(name.value))), maxLen)
  }

  // ----- alias lemmas -----

  /** No `(` of `r` has a `)` anywhere after it. */
  predicate NoClosedParen(r: string) {
    forall i, j :: 0 <= i < j < |r| && r[i] == '(' ==> r[j] != ')'
  }

  /** Removing parenthesised segments only deletes characters: what is left keeps its order. */
  lemma {:induction false} RemoveParensSubsequence(s: string)
    ensures Subsequence(RemoveParens(s), s)
    decreases |s|
  {
    if s != [] {
      match SegmentEnd(s)
      case Some(k) =>
        RemoveParensSubsequence(s[k..]);
        SubsequenceOfSuffix(RemoveParens(s), s, k);
      case None =>
        RemoveParensSubsequence(s[1..]);
        assert ([s[0]] + RemoveParens(s[1..]))[1..] == RemoveParens(s[1..]);
    }
  }

  lemma {:induction false} SubsequenceOfSuffix(a: string, s: string, k: nat)
    requires k <= |s| && Subsequence(a, s[k..])
    ensures Subsequence(a, s)
    decreases k
  {
    if k > 0 {
      assert s[1..][k - 1..] == s[k..];
      SubsequenceOfSuffix(a, s[1..], k - 1);
      SubsequenceSkip(a, s);
    }
  }

  /** No `(` is left in front of a `)`: every parenthesised segment that closes is removed. */
  lemma {:induction false} RemoveParensClosesNothing(s: string)
    ensures NoClosedParen(RemoveParens(s))
    decreases |s|
  {
    if s != [] {
      match SegmentEnd(s)
      case Some(k) =>
        RemoveParensClosesNothing(s[k..]);
      case None =>
        var tail := RemoveParens(s[1..]);
        RemoveParensClosesNothing(s[1..]);
        if s[0] == '(' {
          RemoveParensSubsequence(s[1..]);
          SubsequenceElements(tail, s[1..]);
        }
        ConsNoClosedParen(s[0], tail);
    }
  }

  /** A character in front of a string with no closed parenthesis closes none either, unless it opens one that a `)` closes. */
  lemma ConsNoClosedParen(c: char, tail: string)
    requires NoClosedParen(tail) && (c == '(' ==> ')' !in tail)
    ensures NoClosedParen([c] + tail)
  {
    var r := [c] + tail;
    forall i, j | 0 <= i < j < |r| && r[i] == '('
      ensures r[j] != ')'
    {
      assert r[j] == tail[j - 1];
      if i > 0 {
        assert r[i] == tail[i - 1];
      }
    }
  }

  /** A run of whitespace is kept as it is. */
  lemma {:induction false} RemoveParensOfSpace(w: string)
    requires IsBlank(w)
    ensures RemoveParens(w) == w
    decreases |w|
  {
    if w != [] {
      assert SegmentEnd(w).None?;
      assert IsSpace(w[0]);
      assert LStrip(w[1..]) == LStrip(w);
      RemoveParensOfSpace(w[1..]);
      assert w == [w[0]] + w[1..];
    }
  }

  /** A character that starts no segment is kept, and scanning resumes after it. */
  lemma RemoveParensKeep(s: string)
    requires s != [] && SegmentEnd(s).None?
    ensures RemoveParens(s) == [s[0]] + RemoveParens(s[1..])
  {
  }

  /** Text without a `(` has no segment to remove and is left as it is. */
  lemma {:induction false} RemoveParensNoParen(s: string)
    requires '(' !in s
    ensures RemoveParens(s) == s
    decreases |s|
  {
    if s != [] {
      NoParenStep(s);
      RemoveParensKeep(s);
      RemoveParensNoParen(s[1..]);
      assert [s[0]] + s[1..] == s;
    }
  }

  lemma NoParenStep(s: string)
    requires s != [] && '(' !in s
    ensures SegmentEnd(s).None? && '(' !in s[1..]
  {
    var t := LStrip(s);
    if t != [] {
      assert t[0] == s[|s| - |t|];
    }
  }

  /**
   * Leading text without a `(` that does not end in whitespace survives whole:
   * the substitution acts only on what follows it. (Trailing whitespace would be
   * taken by the `\s*` of a segment that follows.)
   */
  lemma {:induction false} RemoveParensKeepsPrefix(a: string, b: string)
    requires '(' !in a
    requires a == [] || !IsSpace(a[|a| - 1])
    ensures RemoveParens(a + b) == a + RemoveParens(b)
    decreases |a|
  {
    if a == [] {
      assert a + b == b;
    } else {
      var s, t, rb := a + b, a[1..], RemoveParens(b);
      KeepsPrefixStep(a, b);
      RemoveParensKeep(s);
      RemoveParensKeepsPrefix(t, b);
      assert RemoveParens(s[1..]) == t + rb;
      ConsOfTail(a, rb);
    }
  }

  lemma ConsOfTail(a: string, r: string)
    requires a != []
    ensures [a[0]] + (a[1..] + r) == a + r
  {
    assert a == [a[0]] + a[1..];
  }

  lemma KeepsPrefixStep(a: string, b: string)
    requires a != [] && '(' !in a && !IsSpace(a[|a| - 1])
    ensures SegmentEnd(a + b).None?
    ensures (a + b)[0] == a[0] && (a + b)[1..] == a[1..] + b
    ensures '(' !in a[1..] && (a[1..] == [] || !IsSpace(a[1..][|a[1..]| - 1]))
  {
    NoSegmentAfterWordPrefix(a, b);
    assert (a + b)[1..] == a[1..] + b;
    assert a == [a[0]] + a[1..];
  }

  lemma NoSegmentAfterWordPrefix(a: string, b: string)
    requires a != [] && '(' !in a && !IsSpace(a[|a| - 1])
    ensures SegmentEnd(a + b).None?
  {
    var t := LStrip(a);
    LStripOfWordPrefix(a, b);
    assert t[0] == a[|a| - |t|];
    NoSegmentAt(a + b, t + b);
  }

  lemma NoSegmentAt(s: string, t: string)
    requires LStrip(s) == t && t != [] && t[0] != '('
    ensures SegmentEnd(s).None?
  {
  }

  /** Stripping the front of `a + b` stops inside `a` when `a` ends in a non-whitespace character. */
  lemma {:induction false} LStripOfWordPrefix(a: string, b: string)
    requires a != [] && !IsSpace(a[|a| - 1])
    ensures LStrip(a) != [] && LStrip(a + b) == LStrip(a) + b
    decreases |a|
  {
    var s := a + b;
    assert s[0] == a[0];
    if IsSpace(a[0]) {
      assert |a| >= 2;
      var t := a[1..];
      assert s[1..] == t + b;
      LStripOfWordPrefix(t, b);
      assert LStrip(s) == LStrip(s[1..]);
      assert LStrip(a) == LStrip(t);
    } else {
      assert LStrip(s) == s;
      assert LStrip(a) == a;
    }
  }

  /** A parenthesised segment after leading whitespace is removed whole, and scanning resumes after it. */
  lemma ParenSegmentRemoved(w: string, x: string, rest: string)
    requires IsBlank(w)
    requires ')' !in x
    ensures RemoveParens(w + "(" + x + ")" + rest) == RemoveParens(rest)
  {
    var s, seg := w + "(" + x + ")" + rest, "(" + x + ")" + rest;
    SegmentAfterSpace(w, x, rest);
    SegmentEndAt(s, seg, |x| + 1);
    var a, b := |s| - |seg|, |x| + 2;
    SliceOfSuffix(s, a, seg, b);
    RemoveParensSkip(s, a + b);
  }

  lemma SegmentAfterSpace(w: string, x: string, rest: string)
    requires IsBlank(w)
    requires ')' !in x
    ensures LStrip(w + "(" + x + ")" + rest) == "(" + x + ")" + rest
    ensures IndexOf("(" + x + ")" + rest, ')') == Some(|x| + 1)
    ensures ("(" + x + ")" + rest)[|x| + 2..] == rest
  {
    SegmentConcat(w, x, rest);
    LStripSegment(w, "(" + x + ")" + rest);
    IndexOfFirst("(" + x, ')', rest);
  }

  lemma SegmentConcat(w: string, x: string, rest: string)
    ensures w + "(" + x + ")" + rest == w + ("(" + x + ")" + rest)
  {
  }

  lemma LStripSegment(w: string, t: string)
    requires IsBlank(w)
    requires t != [] && t[0] == '('
    ensures LStrip(w + t) == t
  {
    LStripOfSpacePrefix(w, t);
  }

  /** Where the leading segment of `s` ends, given its stripped form `t` and the position `k` of the first `)` in `t`. */
  lemma SegmentEndAt(s: string, t: string, k: nat)
    requires LStrip(s) == t && t != [] && t[0] == '(' && IndexOf(t, ')') == Some(k)
    ensures SegmentEnd(s).Some? && SegmentEnd(s).value == |s| - |t| + (k + 1)
  {
  }

  lemma SliceOfSuffix(s: string, a: nat, t: string, b: nat)
    requires a <= |s| && t == s[a..] && b <= |t|
    ensures s[a + b..] == t[b..]
  {
  }

  /** A leading segment that ends at `j` is dropped whole. */
  lemma RemoveParensSkip(s: string, j: nat)
    requires SegmentEnd(s).Some? && SegmentEnd(s).value == j
    ensures RemoveParens(s) == RemoveParens(s[j..])
  {
  }

  lemma {:induction false} IndexOfFirst(p: string, c: char, q: string)
    requires c !in p
    ensures IndexOf(p + [c] + q, c) == Some(|p|)
    decreases |p|
  {
    if p != [] {
      assert (p + [c] + q)[1..] == p[1..] + [c] + q;
      IndexOfFirst(p[1..], c, q);
    }
  }

  lemma {:induction false} LStripOfSpacePrefix(w: string, t: string)
    requires IsBlank(w)
    requires t != [] && !IsSpace(t[0])
    ensures LStrip(w + t) == t
    decreases |w|
  {
    if w == [] {
      assert w + t == t;
    } else {
      assert (w + t)[1..] == w[1..] + t;
      LStripOfSpacePrefix(w[1..], t);
    }
  }

  /** Only whitespace means an empty stripped string. */
  lemma StripOfSpace(w: string)
    requires IsBlank(w)
    ensures Strip(w) == ""
  {
    assert LStrip(w) == [];
  }

  /** The first two words, joined by one space, make at least six characters (one word alone must make six). */
  predicate TwoWordsLongEnough(ws: seq<string>) {
    (|ws| >= 2 && |ws[0]| + 1 + |ws[1]| >= 6) || (|ws| == 1 && |ws[0]| >= 6)
  }

  /**
   * The selection rule of the alias: the first two words when they make six
   * characters, else the first three when there are three, else the (stripped)
   * string unchanged.
   */
  lemma SelectWordsRule(s: string)
    ensures var ws := Split(s);
      && (TwoWordsLongEnough(ws) ==> SelectWords(s) == Join(Head(ws, 2)))
      && (!TwoWordsLongEnough(ws) && |ws| >= 3 ==> SelectWords(s) == Join(ws[..3]))
      && (!TwoWordsLongEnough(ws) && |ws| < 3 ==> SelectWords(s) == s)
  {
    var ws := Split(s);
    var two := Join(Head(ws, 2));
    assert SelectWords(s) == if |two| >= 6 then two else if |ws| >= 3 then Join(Head(ws, 3)) else s;
    JoinHeadTwoLength(ws);
    assert (|two| >= 6) == TwoWordsLongEnough(ws);
    if |ws| >= 3 {
      assert Head(ws, 3) == ws[..3];
    }
  }

  /** The words of the selection: the first two, the first three or all the words of `s`, by the selection rule. */
  lemma SelectWordsSplit(s: string)
    ensures var ws := Split(s);
      Split(SelectWords(s)) == if TwoWordsLongEnough(ws) then Head(ws, 2) else if |ws| >= 3 then ws[..3] else ws
  {
    SelectWordsRule(s);
    SplitWords(s);
    SplitOfPicked(Split(s), SelectWords(s), s);
  }

  /** Splitting a string picked from words `ws` by the selection rule gives the picked words back. */
  lemma SplitOfPicked(ws: seq<string>, sel: string, s: string)
    requires forall i :: 0 <= i < |ws| ==> IsWord(ws[i])
    requires Split(s) == ws
    requires TwoWordsLongEnough(ws) ==> sel == Join(Head(ws, 2))
    requires !TwoWordsLongEnough(ws) && |ws| >= 3 ==> sel == Join(ws[..3])
    requires !TwoWordsLongEnough(ws) && |ws| < 3 ==> sel == s
    ensures Split(sel) == if TwoWordsLongEnough(ws) then Head(ws, 2) else if |ws| >= 3 then ws[..3] else ws
  {
    if TwoWordsLongEnough(ws) {
      SplitHead(ws, 2);
    } else if |ws| >= 3 {
      assert Head(ws, 3) == ws[..3];
      SplitHead(ws, 3);
    }
  }

  /**
   * Splitting the selection gives a prefix of the words of `s`: two words, three
   * words, or all of them when there are at most two.
   */
  lemma SelectWordsSpec(s: string)
    ensures Split(SelectWords(s)) <= Split(s)
    ensures var n := |Split(SelectWords(s))|; n == 2 || n == 3 || (n == |Split(s)| && n <= 2)
  {
    SelectWordsSplit(s);
  }

  /** The length of the first two words joined by a space. */
  lemma JoinHeadTwoLength(ws: seq<string>)
    ensures |Join(Head(ws, 2))| == if |ws| >= 2 then |ws[0]| + 1 + |ws[1]| else if |ws| == 1 then |ws[0]| else 0
  {
    if |ws| >= 2 {
      var h := Head(ws, 2);
      assert h == [ws[0], ws[1]];
      assert h[1..] == [ws[1]];
    }
  }

  lemma SplitHead(parts: seq<string>, n: nat)
    requires forall i :: 0 <= i < |parts| ==> IsWord(parts[i])
    ensures Split(Join(Head(parts, n))) == Head(parts, n)
  {
    var h := Head(parts, n);
    assert forall i :: 0 <= i < |h| ==> h[i] == parts[i];
    SplitJoin(h);
  }

  /** The truncated label is at most `maxLen` long, for any `maxLen` of at least 1. */
  lemma TruncateBound(s: string, maxLen: int)
    requires maxLen >= 1
    ensures |Truncate(s, maxLen)| <= maxLen
  {
  }

  /**
   * A label within `maxLen` is unchanged; a longer one is its first `maxLen - 1`
   * characters with only their trailing whitespace removed, followed by `…`.
   */
  lemma TruncateSpec(s: string, maxLen: int)
    ensures |s| <= maxLen ==> Truncate(s, maxLen) == s
    ensures |s| > maxLen ==>
      var r := Truncate(s, maxLen);
      var kept := r[..|r| - 1];
      var cut := PyPrefix(s, maxLen - 1);
      && |r| >= 1 && r[|r| - 1] == '…'
      && kept <= s && (maxLen >= 1 ==> |kept| <= maxLen - 1)
      && kept <= cut
      && (kept == [] || !IsSpace(kept[|kept| - 1]))
      && (forall j :: |kept| <= j < |cut| ==> IsSpace(cut[j]))
  {
    if |s| > maxLen {
      var kept := RStrip(PyPrefix(s, maxLen - 1));
      assert (kept + "…")[..|kept|] == kept;
    }
  }

  /** The alias is empty for a missing or empty name, and never longer than `maxLen` when `maxLen` is at least 1. */
  lemma AliasNameBound(name: Option<string>, maxLen: int)
    ensures name.None? || name == Some("") ==> AliasName(name, maxLen) == ""
    ensures maxLen >= 1 ==> |AliasName(name, maxLen)| <= maxLen
  {
    if name.Some? && name.value != "" && maxLen >= 1 {
      TruncateBound(SelectWords(Strip(RemoveParens(name.value))), maxLen);
    }
  }

  /**
   * An alias that needs no truncation is the first two, the first three or all
   * of the words of the name once its parenthesised parts are gone, by the
   * selection rule.
   */
  lemma AliasNameWords(n: string, maxLen: int)
    requires n != "" && |SelectWords(Strip(RemoveParens(n)))| <= maxLen
    ensures var ws := Split(Strip(RemoveParens(n)));
      Split(AliasName(Some(n), maxLen)) ==
        if TwoWordsLongEnough(ws) then Head(ws, 2) else if |ws| >= 3 then ws[..3] else ws
  {
    var s := Strip(RemoveParens(n));
    assert AliasName(Some(n), maxLen) == SelectWords(s);
    SelectWordsSplit(s);
  }


  /**
   * Two words followed by a note in parentheses, as in "Rosca Direta (barra)":
   * the note goes, and the two words stay when together they make six characters
   * and fit in `maxLen`.
   */
  lemma AliasOfTwoWordsWithNote(w1: string, w2: string, x: string, maxLen: int)
    requires IsWord(w1) && IsWord(w2) && '(' !in w1 && '(' !in w2 && ')' !in x
    requires 6 <= |w1| + 1 + |w2| <= maxLen
    ensures AliasName(Some(w1 + " " + w2 + " (" + x + ")"), maxLen) == w1 + " " + w2
  {
    var a := w1 + " " + w2;
    NoParenInTwoWords(w1, w2);
    TrailingNoteRemoved(a, x);
    TwoWordsSelected(w1, w2);
  }

  lemma NoParenInTwoWords(w1: string, w2: string)
    requires IsWord(w2) && '(' !in w1 && '(' !in w2
    ensures var a := w1 + " " + w2; '(' !in a && a != [] && !IsSpace(a[|a| - 1])
  {
    var a := w1 + " " + w2;
    assert a[|a| - 1] == w2[|w2| - 1];
    forall i | 0 <= i < |a|
      ensures a[i] != '('
    {
      if i < |w1| {
        assert a[i] == w1[i];
      } else if i > |w1| {
        assert a[i] == w2[i - |w1| - 1];
      }
    }
  }

  /** Two words that make six characters together are kept whole by the selection. */
  lemma TwoWordsSelected(w1: string, w2: string)
    requires IsWord(w1) && IsWord(w2) && |w1| + 1 + |w2| >= 6
    ensures SelectWords(Strip(w1 + " " + w2)) == w1 + " " + w2
  {
    var a, ws := w1 + " " + w2, [w1, w2];
    assert Join(ws) == a by {
      assert ws[1..] == [w2];
    }
    SplitJoin(ws);
    JoinStripped(ws);
    LStripOfStripped(a);
    SelectWordsRule(a);
    assert Head(ws, 2) == ws;
  }

  /** The alias of "Rosca Direta (barra)" under the default `max_len` of 16 is "Rosca Direta". */
  lemma AliasOfRoscaDireta(w1: string, w2: string, note: string)
    requires w1 == "Rosca" && w2 == "Direta" && note == "barra"
    ensures AliasName(Some(w1 + " " + w2 + " (" + note + ")"), 16) == w1 + " " + w2
  {
    assert IsWord(w1) && IsWord(w2);
    AliasOfTwoWordsWithNote(w1, w2, note, 16);
  }

  /** A note in parentheses after words without `(` is removed together with the space before it. */
  lemma TrailingNoteRemoved(a: string, x: string)
    requires '(' !in a && a != [] && !IsSpace(a[|a| - 1]) && ')' !in x
    ensures RemoveParens(a + " (" + x + ")") == a
  {
    var note := " " + "(" + x + ")" + "";
    assert note == " (" + x + ")";
    assert a + " (" + x + ")" == a + note;
    RemoveParensKeepsPrefix(a, note);
    assert IsBlank(" ");
    ParenSegmentRemoved(" ", x, "");
    assert a + [] == a;
  }

  /** A name that is only a parenthesised segment, possibly padded with whitespace, has an empty alias. */
  lemma AliasOfParenthesisedName(w1: string, x: string, w2: string, maxLen: int)
    requires IsBlank(w1)
    requires IsBlank(w2)
    requires ')' !in x && maxLen >= 0
    ensures AliasName(Some(w1 + "(" + x + ")" + w2), maxLen) == ""
  {
    var n := w1 + "(" + x + ")" + w2;
    assert n != [];
    ParenSegmentRemoved(w1, x, w2);
    RemoveParensOfSpace(w2);
    StripOfSpace(w2);
    assert Split("") == [];
  }
}
