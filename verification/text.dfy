/**
 * The few Python string primitives the dashboard relies on: whitespace, case
 * mapping, `strip`/`rstrip`, `split()`/`" ".join`, the `in` substring test and
 * prefix slicing `s[:n]`.
 */
module Text {

  /** Python's `str.isspace`, which is also what `strip()`, `split()` and the regex class `\s` use. */
  predicate IsSpace(c: char) {
    || c == ' '
    || ('\t' <= c <= '\r')
    || ('\U{1C}' <= c <= '\U{1F}')
    || c == '\U{85}' || c == '\U{A0}' || c == '\U{1680}'
    || ('\U{2000}' <= c <= '\U{200A}')
    || c == '\U{2028}' || c == '\U{2029}' || c == '\U{202F}' || c == '\U{205F}' || c == '\U{3000}'
  }

  /** `str.lower` on one character, for the ASCII and Latin-1 upper-case letters. */
  function LowerChar(c: char): char {
    if 'A' <= c <= 'Z' || ('\U{C0}' <= c <= '\U{DE}' && c != '\U{D7}') then (c as int + 32) as char else c
  }

  /** `str.upper` on one character, for every character whose upper case is one ASCII or Latin-1 letter. */
  function UpperChar(c: char): char {
    if 'a' <= c <= 'z' || ('\U{E0}' <= c <= '\U{FE}' && c != '\U{F7}') then (c as int - 32) as char
    else if c == '\U{131}' then 'I'
    else if c == '\U{17F}' then 'S'
    else c
  }

  /** `str.isalpha` on one character, for the ASCII and Latin-1 range. */
  predicate IsAlpha(c: char) {
    || ('A' <= c <= 'Z') || ('a' <= c <= 'z')
    || c == '\U{AA}' || c == '\U{B5}' || c == '\U{BA}'
    || ('\U{C0}' <= c <= '\U{D6}') || ('\U{D8}' <= c <= '\U{F6}') || ('\U{F8}' <= c <= '\U{FF}')
  }

  function Lower(s: string): (r: string)
    ensures |r| == |s|
    ensures forall i :: 0 <= i < |s| ==> r[i] == LowerChar(s[i])
  {
    if s == [] then [] else [LowerChar(s[0])] + Lower(s[1..])
  }

  function LStrip(s: string): (r: string)
    ensures |r| <= |s| && r == s[|s| - |r|..]
    ensures r == [] || !IsSpace(r[0])
    ensures forall i :: 0 <= i < |s| - |r| ==> IsSpace(s[i])
  {
    if s != [] && IsSpace(s[0]) then LStrip(s[1..]) else s
  }

  function RStrip(s: string): (r: string)
    ensures r <= s
    ensures r == [] || !IsSpace(r[|r| - 1])
    ensures forall i :: |r| <= i < |s| ==> IsSpace(s[i])
  {
    if s != [] && IsSpace(s[|s| - 1]) then RStrip(s[..|s| - 1]) else s
  }

  /** `str.strip()`: leading and trailing whitespace removed. */
  function Strip(s: string): string {
    RStrip(LStrip(s))
  }

  /** True when `s` has no whitespace at either end (what `Strip` produces). */
  predicate Stripped(s: string) {
    s == [] || (!IsSpace(s[0]) && !IsSpace(s[|s| - 1]))
  }

  /** Only whitespace, possibly nothing: what Python's `s.strip() == ""` tests. */
  predicate IsBlank(s: string) {
    LStrip(s) == []
  }

  /** The whitespace-free run at the front of `t`. */
  function TakeWord(t: string): (w: string)
    ensures w <= t
    ensures forall i :: 0 <= i < |w| ==> !IsSpace(w[i])
    ensures |w| < |t| ==> IsSpace(t[|w|])
    ensures t != [] && !IsSpace(t[0]) ==> |w| >= 1
  {
    if t != [] && !IsSpace(t[0]) then [t[0]] + TakeWord(t[1..]) else []
  }

  /** `str.split()` with no separator: the maximal whitespace-free runs, in order. */
  function Split(s: string): seq<string>
    decreases |s|
  {
    var t := LStrip(s);
    if t == [] then []
    else
      var w := TakeWord(t);
      [w] + Split(t[|w|..])
  }

  /** `" ".join(ws)`. */
  function Join(ws: seq<string>): string {
    if |ws| == 0 then ""
    else if |ws| == 1 then ws[0]
    else ws[0] + " " + Join(ws[1..])
  }

  /** A word as `Split` produces it: non-empty and without whitespace. */
  predicate IsWord(w: string) {
    w != [] && forall i :: 0 <= i < |w| ==> !IsSpace(w[i])
  }

  /** Python's `k in s` on strings: `k` occurs in `s` as a contiguous substring. */
  predicate Contains(s: string, k: string)
    decreases |s|
  {
    k <= s || (s != [] && Contains(s[1..], k))
  }

  /** Python's `s[:n]`, including the negative `n` that counts from the end. */
  function PyPrefix(s: string, n: int): (r: string)
    ensures r <= s
  {
    if n >= 0 then (if n <= |s| then s[..n] else s)
    else (if |s| + n >= 0 then s[..|s| + n] else [])
  }

  // ----- lemmas -----

  /** `strip()` leaves no whitespace at either end. */
  lemma {:induction false} StripIsStripped(s: string)
    ensures Stripped(Strip(s))
  {
    var l := LStrip(s);
    var r := RStrip(l);
    if r != [] {
      assert r[0] == l[0];
    }
  }

  lemma {:induction false} LStripOfStripped(s: string)
    requires Stripped(s)
    ensures LStrip(s) == s && RStrip(s) == s
  {
  }

  /** Stripping twice is stripping once. */
  lemma {:induction false} StripIdempotent(s: string)
    ensures Strip(Strip(s)) == Strip(s)
  {
    StripIsStripped(s);
    LStripOfStripped(Strip(s));
  }

  lemma LowerSlice(s: string, i: int, j: int)
    requires 0 <= i <= j <= |s|
    ensures Lower(s[i..j]) == Lower(s)[i..j]
  {
    var a, b := Lower(s[i..j]), Lower(s)[i..j];
    forall k | 0 <= k < j - i
      ensures a[k] == b[k]
    {
      assert s[i..j][k] == s[i + k];
    }
  }

  /** Lower-casing never turns whitespace into a letter or a letter into whitespace. */
  lemma LowerCharSpace(c: char)
    ensures IsSpace(LowerChar(c)) <==> IsSpace(c)
  {
  }

  lemma {:induction false} LStripLower(s: string)
    ensures LStrip(Lower(s)) == Lower(LStrip(s))
    decreases |s|
  {
    if s != [] {
      LowerCharSpace(s[0]);
      assert Lower(s)[0] == LowerChar(s[0]);
      if IsSpace(s[0]) {
        LowerSlice(s, 1, |s|);
        LStripLower(s[1..]);
        calc {
          LStrip(Lower(s));
          LStrip(Lower(s)[1..]);
          LStrip(Lower(s[1..]));
          Lower(LStrip(s[1..]));
        }
      }
    }
  }

  lemma {:induction false} RStripLower(s: string)
    ensures RStrip(Lower(s)) == Lower(RStrip(s))
    decreases |s|
  {
    if s != [] {
      LowerCharSpace(s[|s| - 1]);
      assert Lower(s)[|s| - 1] == LowerChar(s[|s| - 1]);
      if IsSpace(s[|s| - 1]) {
        LowerSlice(s, 0, |s| - 1);
        RStripLower(s[..|s| - 1]);
        calc {
          RStrip(Lower(s));
          RStrip(Lower(s)[..|s| - 1]);
          RStrip(Lower(s[..|s| - 1]));
          Lower(RStrip(s[..|s| - 1]));
        }
      }
    }
  }

  /** `strip()` and `lower()` commute. */
  lemma {:induction false} StripLower(s: string)
    ensures Strip(Lower(s)) == Lower(Strip(s))
  {
    LStripLower(s);
    RStripLower(LStrip(s));
  }

  /** `lower()` is idempotent. */
  lemma LowerIdempotent(s: string)
    ensures Lower(Lower(s)) == Lower(s)
  {
  }

  /** An occurrence at a known offset is an occurrence. */
  lemma {:induction false} ContainsAt(s: string, k: string, i: nat)
    requires i + |k| <= |s| && s[i..i + |k|] == k
    ensures Contains(s, k)
    decreases i
  {
    if i == 0 {
      assert k <= s;
    } else {
      assert s[1..][i - 1..i - 1 + |k|] == k;
      ContainsAt(s[1..], k, i - 1);
    }
  }

  /** An occurrence of `k` is an occurrence of each prefix of `k`. */
  lemma {:induction false} ContainsPrefix(s: string, k: string, p: string)
    requires Contains(s, k) && p <= k
    ensures Contains(s, p)
    decreases |s|
  {
    if k <= s {
      assert p <= s;
    } else {
      ContainsPrefix(s[1..], k, p);
    }
  }

  /** What `Split` does to a word followed by a space. */
  lemma {:induction false} SplitWordSpace(w: string, rest: string)
    requires IsWord(w)
    ensures Split(w + " " + rest) == [w] + Split(rest)
  {
    var sp := " " + rest;
    var s := w + sp;
    assert w + " " + rest == s;
    assert s[0] == w[0];
    assert LStrip(s) == s;
    TakeWordOf(w, sp);
    assert s[|w|..] == sp;
    assert Split(s) == [w] + Split(sp);
    SplitSkipsSpace(sp);
    assert sp[1..] == rest;
  }

  lemma {:induction false} TakeWordOf(w: string, rest: string)
    requires IsWord(w)
    requires rest == [] || IsSpace(rest[0])
    ensures TakeWord(w + rest) == w
    decreases |w|
  {
    if |w| > 1 {
      assert (w + rest)[1..] == w[1..] + rest;
      TakeWordOf(w[1..], rest);
    } else {
      assert (w + rest)[1..] == rest;
    }
  }

  lemma {:induction false} SplitSkipsSpace(s: string)
    requires s != [] && IsSpace(s[0])
    ensures Split(s) == Split(s[1..])
  {
  }

  lemma {:induction false} SplitWord(w: string)
    requires IsWord(w)
    ensures Split(w) == [w]
  {
    assert LStrip(w) == w;
    TakeWordOf(w, []);
    assert w + [] == w;
    assert w[|w|..] == [];
  }

  /** Splitting a join of words gives the words back. */
  lemma {:induction false} SplitJoin(ws: seq<string>)
    requires forall i :: 0 <= i < |ws| ==> IsWord(ws[i])
    ensures Split(Join(ws)) == ws
    decreases |ws|
  {
    if |ws| == 1 {
      SplitWord(ws[0]);
    } else if |ws| > 1 {
      SplitJoin(ws[1..]);
      SplitJoinStep(ws[0], Join(ws[1..]), ws[1..]);
      assert ws == [ws[0]] + ws[1..];
    }
  }

  lemma SplitJoinStep(w: string, rest: string, tail: seq<string>)
    requires IsWord(w) && Split(rest) == tail
    ensures Split(w + " " + rest) == [w] + tail
  {
    SplitWordSpace(w, rest);
  }

  /** Every piece `Split` returns is a word. */
  lemma {:induction false} SplitWords(s: string)
    ensures forall i :: 0 <= i < |Split(s)| ==> IsWord(Split(s)[i])
    decreases |s|
  {
    var t := LStrip(s);
    if t != [] {
      var w := TakeWord(t);
      SplitWords(t[|w|..]);
    }
  }

  /** A join of words has no whitespace at either end. */
  lemma {:induction false} JoinStripped(ws: seq<string>)
    requires forall i :: 0 <= i < |ws| ==> IsWord(ws[i])
    ensures Stripped(Join(ws))
    ensures |ws| > 0 ==> Join(ws) != []
    decreases |ws|
  {
    if |ws| > 1 {
      JoinStripped(ws[1..]);
    }
  }

  // ----- ordering -----

  /** Python's `a <= b` on strings: lexicographic by code point, a proper prefix first. */
  predicate StrLe(a: string, b: string)
    decreases |a|
  {
    a == [] || (b != [] && (a[0] < b[0] || (a[0] == b[0] && StrLe(a[1..], b[1..]))))
  }

  lemma {:induction false} StrLeTotal(a: string, b: string)
    ensures StrLe(a, b) || StrLe(b, a)
    decreases |a|
  {
    if a != [] && b != [] && a[0] == b[0] {
      StrLeTotal(a[1..], b[1..]);
    }
  }

  lemma {:induction false} StrLeTransitive(a: string, b: string, c: string)
    requires StrLe(a, b) && StrLe(b, c)
    ensures StrLe(a, c)
    decreases |a|
  {
    if a != [] && a[0] == b[0] && b[0] == c[0] {
      StrLeTransitive(a[1..], b[1..], c[1..]);
    }
  }

  lemma {:induction false} StrLeAntisymmetric(a: string, b: string)
    requires StrLe(a, b) && StrLe(b, a)
    ensures a == b
    decreases |a|
  {
    if a != [] {
      StrLeAntisymmetric(a[1..], b[1..]);
      assert a == [a[0]] + a[1..] && b == [b[0]] + b[1..];
    }
  }
}
