/**
 * `str::split_whitespace`: the maximal runs of non-whitespace characters,
 * where whitespace is Unicode's White_Space property (`char::is_whitespace`).
 */
module Words {

  predicate IsWhitespace(c: char) {
    || ('\t' <= c <= '\r') || c == ' ' || c == '\U{85}' || c == '\U{A0}' || c == '\U{1680}'
    || ('\U{2000}' <= c <= '\U{200A}') || c == '\U{2028}' || c == '\U{2029}' || c == '\U{202F}'
    || c == '\U{205F}' || c == '\U{3000}'
  }

  predicate NoWhitespace(s: string) {
    forall i :: 0 <= i < |s| ==> !IsWhitespace(s[i])
  }

  predicate AllWhitespace(s: string) {
    forall i :: 0 <= i < |s| ==> IsWhitespace(s[i])
  }

  /** The length of the run of non-whitespace characters at the start of `s`. */
  function WordLen(s: string): (n: nat)
    ensures n <= |s|
    ensures forall i :: 0 <= i < n && i < |s| ==> !IsWhitespace(s[i])
    ensures n < |s| ==> IsWhitespace(s[n])
    ensures |s| > 0 && !IsWhitespace(s[0]) ==> n >= 1
    decreases |s|
  {
    if |s| == 0 || IsWhitespace(s[0]) then 0
    else
      1 + WordLen(s[1..])
  }

  /** `str::split_whitespace`; WordsAreWords, ConcatWords, SplitAtWhitespace and SplitSingleWord characterise the result. */
  function SplitWhitespace(s: string): (words: seq<string>)
    ensures |words| <= |s|
    decreases |s|
  {
    if |s| == 0 then []
    else if IsWhitespace(s[0]) then SplitWhitespace(s[1..])
    else
      var n := WordLen(s);
      [s[..n]] + SplitWhitespace(s[n..])
  }

  function Concat(words: seq<string>): string
    decreases |words|
  {
    if |words| == 0 then [] else words[0] + Concat(words[1..])
  }

  /** The characters of `s` that are not whitespace, in order. */
  function RemoveWhitespace(s: string): (t: string)
    ensures NoWhitespace(t)
    decreases |s|
  {
    if |s| == 0 then []
    else if IsWhitespace(s[0]) then RemoveWhitespace(s[1..])
    else [s[0]] + RemoveWhitespace(s[1..])
  }

  lemma {:induction false} RemoveWhitespaceAppend(a: string, b: string)
    ensures RemoveWhitespace(a + b) == RemoveWhitespace(a) + RemoveWhitespace(b)
    decreases |a|
  {
    if |a| > 0 {
      assert (a + b)[1..] == a[1..] + b;
      RemoveWhitespaceAppend(a[1..], b);
    } else {
      assert a + b == b;
    }
  }

  lemma {:induction false} RemoveWhitespaceOfWord(s: string)
    requires NoWhitespace(s)
    ensures RemoveWhitespace(s) == s
    decreases |s|
  {
    if |s| > 0 {
      RemoveWhitespaceOfWord(s[1..]);
    }
  }

  /** Every word is non-empty and free of whitespace. */
  lemma {:induction false} WordsAreWords(s: string)
    ensures forall k :: 0 <= k < |SplitWhitespace(s)| ==>
              |SplitWhitespace(s)[k]| > 0 && NoWhitespace(SplitWhitespace(s)[k])
    decreases |s|
  {
    if |s| > 0 {
      if IsWhitespace(s[0]) {
        WordsAreWords(s[1..]);
      } else {
        var n := WordLen(s);
        WordsAreWords(s[n..]);
        var rest := SplitWhitespace(s[n..]);
        assert forall k :: 1 <= k < 1 + |rest| ==> ([s[..n]] + rest)[k] == rest[k - 1];
      }
    }
  }

  /** Gluing the words back together gives exactly the non-whitespace characters of the input. */
  lemma {:induction false} ConcatWords(s: string)
    ensures Concat(SplitWhitespace(s)) == RemoveWhitespace(s)
    decreases |s|
  {
    if |s| > 0 {
      if IsWhitespace(s[0]) {
        ConcatWords(s[1..]);
      } else {
        var n := WordLen(s);
        ConcatWords(s[n..]);
        var words := [s[..n]] + SplitWhitespace(s[n..]);
        assert words[1..] == SplitWhitespace(s[n..]);
        assert s == s[..n] + s[n..];
        RemoveWhitespaceAppend(s[..n], s[n..]);
        RemoveWhitespaceOfWord(s[..n]);
      }
    }
  }

  /** There is no word exactly when every character is whitespace. */
  lemma {:induction false} NoWordsIffBlank(s: string)
    ensures SplitWhitespace(s) == [] <==> AllWhitespace(s)
    decreases |s|
  {
    if |s| > 0 {
      NoWordsIffBlank(s[1..]);
      if IsWhitespace(s[0]) {
        assert AllWhitespace(s) <==> AllWhitespace(s[1..]) by {
          if AllWhitespace(s[1..]) {
            forall i | 0 <= i < |s| ensures IsWhitespace(s[i]) {
              if i > 0 { assert s[i] == s[1..][i - 1]; }
            }
          }
        }
      }
    }
  }

  /** A word ends at the first whitespace character: text after that character does not change where it ends. */
  lemma {:induction false} WordLenStopsAtWhitespace(a: string, t: string)
    requires |t| > 0 && IsWhitespace(t[0])
    ensures WordLen(a + t) == WordLen(a)
    decreases |a|
  {
    if |a| == 0 {
      assert a + t == t;
    } else if !IsWhitespace(a[0]) {
      assert (a + t)[1..] == a[1..] + t;
      WordLenStopsAtWhitespace(a[1..], t);
    }
  }

  /** Words are maximal: a whitespace character always separates, so splitting around one splits each side on its own. */
  lemma {:induction false} SplitAtWhitespace(a: string, w: char, b: string)
    requires IsWhitespace(w)
    ensures SplitWhitespace(a + [w] + b) == SplitWhitespace(a) + SplitWhitespace(b)
    decreases |a|
  {
    var s := a + [w] + b;
    if |a| == 0 {
      assert s[1..] == b;
    } else if IsWhitespace(a[0]) {
      assert s[1..] == a[1..] + [w] + b;
      SplitAtWhitespace(a[1..], w, b);
    } else {
      var n := WordLen(a);
      assert s == a + ([w] + b);
      WordLenStopsAtWhitespace(a, [w] + b);
      assert WordLen(s) == n;
      assert s[..n] == a[..n];
      assert s[n..] == a[n..] + [w] + b;
      SplitAtWhitespace(a[n..], w, b);
      assert SplitWhitespace(a) == [a[..n]] + SplitWhitespace(a[n..]);
    }
  }

  /** Words are maximal the other way too: a non-empty run without whitespace is one word, never several. */
  lemma SplitSingleWord(w: string)
    requires |w| > 0 && NoWhitespace(w)
    ensures SplitWhitespace(w) == [w]
  {
    var n := WordLen(w);
    assert n == |w|;
    assert w[n..] == [];
    assert w[..n] == w;
  }
}
