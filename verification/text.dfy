/**
 * The Python string built-ins the inventory parser and the command runner
 * rely on: `str.isspace`, `str.strip()`, `str.split()`, `str.split(sep, 1)`,
 * `str.lower()` and the comment test `startswith(('#', ';'))`.
 */
module Text {
  import opened Wrappers

  /** The characters for which Python's `str.isspace` holds; `str.strip()`
      and `str.split()` without arguments cut on exactly these. */
  predicate IsSpace(c: char) {
    || ('\U{9}' <= c <= '\U{D}')
    || ('\U{1C}' <= c <= '\U{20}')
    || c == '\U{85}' || c == '\U{A0}' || c == '\U{1680}'
    || ('\U{2000}' <= c <= '\U{200A}')
    || c == '\U{2028}' || c == '\U{2029}' || c == '\U{202F}'
    || c == '\U{205F}' || c == '\U{3000}'
  }

  predicate AllSpace(s: string) {
    forall i | 0 <= i < |s| :: IsSpace(s[i])
  }

  predicate NoSpace(s: string) {
    forall i | 0 <= i < |s| :: !IsSpace(s[i])
  }

  /** Neither end of `s` is whitespace. */
  predicate Trimmed(s: string) {
    s == [] || (!IsSpace(s[0]) && !IsSpace(s[|s| - 1]))
  }

  // ---------------------------------------------------------------- strip

  /** The first index at or after `i` that is not whitespace, or `|s|`. */
  function SkipSpaces(s: string, i: nat): (k: nat)
    requires i <= |s|
    ensures i <= k <= |s|
    ensures forall m | i <= m < k :: IsSpace(s[m])
    ensures k < |s| ==> !IsSpace(s[k])
    decreases |s| - i
  {
    if i < |s| && IsSpace(s[i]) then SkipSpaces(s, i + 1) else i
  }

  /** The end of `s[lo..j]` once its trailing whitespace is cut off. */
  function BackOverSpaces(s: string, lo: nat, j: nat): (k: nat)
    requires lo <= j <= |s|
    ensures lo <= k <= j
    ensures forall m | k <= m < j :: IsSpace(s[m])
    ensures k > lo ==> !IsSpace(s[k - 1])
    decreases j
  {
    if j > lo && IsSpace(s[j - 1]) then BackOverSpaces(s, lo, j - 1) else j
  }

  /** Python's `s.strip()`. */
  function Strip(s: string): (r: string)
    ensures Trimmed(r)
  {
    var a := SkipSpaces(s, 0);
    s[a..BackOverSpaces(s, a, |s|)]
  }

  /** What `Strip` cuts off is whitespace on both sides. */
  lemma StripIsInfix(s: string)
    ensures var a := SkipSpaces(s, 0);
      && Strip(s) == s[a..a + |Strip(s)|]
      && AllSpace(s[..a]) && AllSpace(s[a + |Strip(s)|..])
  {
  }

  lemma {:induction false} SkipSpacesTo(s: string, i: nat, k: nat)
    requires i <= k <= |s|
    requires forall m | i <= m < k :: IsSpace(s[m])
    requires k < |s| ==> !IsSpace(s[k])
    ensures SkipSpaces(s, i) == k
    decreases k - i
  {
    if i < k {
      SkipSpacesTo(s, i + 1, k);
    }
  }

  lemma {:induction false} BackOverSpacesTo(s: string, lo: nat, j: nat, k: nat)
    requires lo <= k <= j <= |s|
    requires forall m | k <= m < j :: IsSpace(s[m])
    requires k > lo ==> !IsSpace(s[k - 1])
    ensures BackOverSpaces(s, lo, j) == k
    decreases j - k
  {
    if k < j {
      BackOverSpacesTo(s, lo, j - 1, k);
    }
  }

  /** `Strip` removes exactly the surrounding whitespace: any split of a
      string into whitespace, a trimmed middle and whitespace strips to that
      middle. */
  lemma StripUnique(pre: string, mid: string, post: string)
    requires AllSpace(pre) && AllSpace(post) && Trimmed(mid)
    ensures Strip(pre + mid + post) == mid
  {
    var s := pre + mid + post;
    var e := |pre| + |mid|;
    assert forall m | 0 <= m < |pre| :: s[m] == pre[m];
    assert forall m | |pre| <= m < e :: s[m] == mid[m - |pre|];
    assert forall m | e <= m < |s| :: s[m] == post[m - e];
    if mid == [] {
      SkipSpacesTo(s, 0, |s|);
      BackOverSpacesTo(s, |s|, |s|, |s|);
    } else {
      SkipSpacesTo(s, 0, |pre|);
      BackOverSpacesTo(s, |pre|, |s|, e);
      assert s[|pre|..e] == mid;
    }
  }

  /** A string strips to nothing exactly when it is all whitespace. */
  lemma StripEmpty(s: string)
    ensures Strip(s) == [] <==> AllSpace(s)
  {
    if AllSpace(s) {
      StripUnique(s, [], []);
      assert s + [] + [] == s;
    }
  }

  /** Stripping twice is stripping once. */
  lemma StripIdempotent(s: string)
    ensures Strip(Strip(s)) == Strip(s)
  {
    StripUnique([], Strip(s), []);
    assert [] + Strip(s) + [] == Strip(s);
  }

  /** The comment test of both tools: after stripping, the line is empty or
      starts with `#` or `;`. */
  predicate IsBlankOrComment(stripped: string) {
    stripped == [] || stripped[0] == '#' || stripped[0] == ';'
  }

  // ---------------------------------------------------------------- split

  /** Length of the run of non-whitespace characters that starts `s`. */
  function WordLength(s: string): (n: nat)
    ensures n <= |s| && NoSpace(s[..n])
    ensures n < |s| ==> IsSpace(s[n])
  {
    if s == [] || IsSpace(s[0]) then 0 else 1 + WordLength(s[1..])
  }

  /** Python's `s.split()`: the maximal runs of non-whitespace characters,
      in order. */
  function Words(s: string): (ws: seq<string>)
    ensures forall k | 0 <= k < |ws| :: ws[k] != [] && NoSpace(ws[k])
    decreases |s|
  {
    if s == [] then []
    else if IsSpace(s[0]) then Words(s[1..])
    else
      var n := WordLength(s);
      [s[..n]] + Words(s[n..])
  }

  /** The words separated by single spaces. */
  function JoinWithSpaces(ws: seq<string>): string {
    if ws == [] then ""
    else if |ws| == 1 then ws[0]
    else ws[0] + " " + JoinWithSpaces(ws[1..])
  }

  lemma {:induction false} WordLengthOfWord(w: string, rest: string)
    requires NoSpace(w)
    requires rest == [] || IsSpace(rest[0])
    ensures WordLength(w + rest) == |w|
  {
    if w != [] {
      assert (w + rest)[1..] == w[1..] + rest;
      WordLengthOfWord(w[1..], rest);
    }
  }

  /** `Words` undoes `JoinWithSpaces` on words that hold no whitespace. */
  lemma {:induction false} WordsOfJoin(ws: seq<string>)
    requires forall k | 0 <= k < |ws| :: ws[k] != [] && NoSpace(ws[k])
    ensures Words(JoinWithSpaces(ws)) == ws
  {
    if ws == [] {
    } else if |ws| == 1 {
      var w := ws[0];
      WordLengthOfWord(w, []);
      assert w + [] == w;
      assert w[..|w|] == w && w[|w|..] == [];
    } else {
      var w := ws[0];
      var rest := JoinWithSpaces(ws[1..]);
      var s := w + " " + rest;
      assert s == w + (" " + rest);
      WordLengthOfWord(w, " " + rest);
      assert s[..|w|] == w;
      assert s[|w|..] == " " + rest;
      assert (" " + rest)[1..] == rest;
      WordsOfJoin(ws[1..]);
      assert [ws[0]] + ws[1..] == ws;
    }
  }

  lemma {:induction false} WordLengthBeforeSpace(a: string, r: string)
    requires r == [] || IsSpace(r[0])
    ensures WordLength(a + r) == WordLength(a)
  {
    if a != [] && !IsSpace(a[0]) {
      assert (a + r)[1..] == a[1..] + r;
      WordLengthBeforeSpace(a[1..], r);
    } else if a == [] {
      assert a + r == r;
    }
  }

  /** Text cut just before whitespace splits into the words of each part. */
  lemma {:induction false} WordsBeforeSpace(a: string, r: string)
    requires r == [] || IsSpace(r[0])
    ensures Words(a + r) == Words(a) + Words(r)
    decreases |a|
  {
    if a == [] {
      assert a + r == r;
    } else if IsSpace(a[0]) {
      assert (a + r)[1..] == a[1..] + r;
      WordsBeforeSpace(a[1..], r);
    } else {
      var n := WordLength(a);
      WordLengthBeforeSpace(a, r);
      assert (a + r)[..n] == a[..n];
      assert (a + r)[n..] == a[n..] + r;
      WordsBeforeSpace(a[n..], r);
      assert [a[..n]] + (Words(a[n..]) + Words(r)) == [a[..n]] + Words(a[n..]) + Words(r);
    }
  }

  /** Leading whitespace is skipped. */
  lemma {:induction false} WordsAfterSpaces(sp: string, b: string)
    requires AllSpace(sp)
    ensures Words(sp + b) == Words(b)
  {
    if sp != [] {
      assert (sp + b)[0] == sp[0] && (sp + b)[1..] == sp[1..] + b;
      assert AllSpace(sp[1..]) by {
        assert forall m | 0 <= m < |sp| - 1 :: sp[1..][m] == sp[m + 1];
      }
      WordsAfterSpaces(sp[1..], b);
    } else {
      assert sp + b == b;
    }
  }

  /** Whitespace alone has no words. */
  lemma WordsOfSpaces(sp: string)
    requires AllSpace(sp)
    ensures Words(sp) == []
  {
    WordsAfterSpaces(sp, []);
    assert sp + [] == sp;
  }

  /** A non-empty run without whitespace is one word. */
  lemma WordsOfWord(w: string)
    requires w != [] && NoSpace(w)
    ensures Words(w) == [w]
  {
    WordLengthOfWord(w, []);
    assert w + [] == w;
    assert w[..|w|] == w && w[|w|..] == [];
  }

  /** Any non-empty run of whitespace, of any kind and length, separates
      words: `split()` gives the words on either side of it. */
  lemma WordsAtSpaces(a: string, sp: string, b: string)
    requires sp != [] && AllSpace(sp)
    ensures Words(a + sp + b) == Words(a) + Words(b)
  {
    assert a + sp + b == a + (sp + b);
    WordsBeforeSpace(a, sp + b);
    WordsAfterSpaces(sp, b);
  }

  // ---------------------------------------------------------- split(sep, 1)

  /** Index of the first `c` in `s`, or `|s|` when there is none. */
  function IndexOf(s: string, c: char): (i: nat)
    ensures i <= |s| && c !in s[..i]
    ensures i < |s| ==> s[i] == c
  {
    if s == [] then 0
    else if s[0] == c then 0
    else 1 + IndexOf(s[1..], c)
  }

  /** Python's `part.split(sep, 1)` unpacked into two names: `None` when the
      unpacking would raise (no separator), else the text before the first
      separator and everything after it. */
  function SplitFirst(s: string, sep: char): (r: Option<(string, string)>)
    ensures r.None? <==> sep !in s
    ensures r.Some? ==> s == r.value.0 + [sep] + r.value.1 && sep !in r.value.0
  {
    var i := IndexOf(s, sep);
    if i == |s| then
      assert s[..i] == s;
      None
    else
      assert s == s[..i] + [sep] + s[i + 1..];
      Some((s[..i], s[i + 1..]))
  }

  /** The split is unique: whatever follows the first separator, further
      separators included, is the second half. */
  lemma SplitFirstUnique(key: string, sep: char, value: string)
    requires sep !in key
    ensures SplitFirst(key + [sep] + value, sep) == Some((key, value))
  {
    var s := key + [sep] + value;
    IndexOfAfter(key, sep, [sep] + value);
    assert s == key + ([sep] + value);
    assert s[..|key|] == key && s[|key| + 1..] == value;
  }

  lemma {:induction false} IndexOfAfter(key: string, c: char, rest: string)
    requires c !in key
    requires rest != [] && rest[0] == c
    ensures IndexOf(key + rest, c) == |key|
  {
    if key != [] {
      assert (key + rest)[1..] == key[1..] + rest;
      IndexOfAfter(key[1..], c, rest);
    }
  }

  // ---------------------------------------------------------------- lower

  /** Python's `c.lower()` on ASCII letters; every other character is kept. */
  function LowerChar(c: char): char {
    if 'A' <= c <= 'Z' then (c as int + 32) as char else c
  }

  /** Python's `s.lower()` restricted to ASCII case folding. */
  function Lower(s: string): (r: string)
    ensures |r| == |s|
  {
    if s == [] then [] else [LowerChar(s[0])] + Lower(s[1..])
  }

  /** Each upper-case ASCII letter becomes its lower-case letter, which
      lies 32 code points further on; every other character is kept where it
      was. */
  lemma {:induction false} LowerChars(s: string)
    ensures forall i | 0 <= i < |s| :: !('A' <= Lower(s)[i] <= 'Z')
    ensures forall i | 0 <= i < |s| && !('A' <= s[i] <= 'Z') :: Lower(s)[i] == s[i]
    ensures forall i | 0 <= i < |s| && 'A' <= s[i] <= 'Z' :: Lower(s)[i] as int == s[i] as int + 32
  {
    if s != [] {
      LowerChars(s[1..]);
      assert forall i | 1 <= i < |s| :: Lower(s)[i] == Lower(s[1..])[i - 1];
    }
  }

  /** Lower-casing a lower-cased string changes nothing. */
  lemma {:induction false} LowerIdempotent(s: string)
    ensures Lower(Lower(s)) == Lower(s)
  {
    if s != [] {
      LowerIdempotent(s[1..]);
      assert Lower(s)[1..] == Lower(s[1..]);
    }
  }
}
