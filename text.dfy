/** The string operations the file names are built from: `str.lower()`
    and `str.replace(old, new)` where `old` is a single character. The
    functions are plain recursive definitions; what they compute is stated
    by the lemmas after them. */
module Text {

  predicate IsUpper(c: char) {
    'A' <= c <= 'Z'
  }

  /** Lower-cases one character (ASCII letters only). */
  function LowerChar(c: char): (r: char)
    ensures !IsUpper(r)
    ensures IsUpper(c) ==> r as int == c as int + 32
    ensures !IsUpper(c) ==> r == c
  {
    if IsUpper(c) then (c as int - 'A' as int + 'a' as int) as char else c
  }

  /** `s.lower()`. */
  function Lower(s: string): string {
    if s == [] then [] else [LowerChar(s[0])] + Lower(s[1..])
  }

  /** `s.replace(a, b)` for single characters. */
  function ReplaceChar(s: string, a: char, b: char): string {
    if s == [] then [] else [if s[0] == a then b else s[0]] + ReplaceChar(s[1..], a, b)
  }

  /** `s.replace(c, '')`. */
  function RemoveChar(s: string, c: char): string {
    if s == [] then []
    else if s[0] == c then RemoveChar(s[1..], c)
    else [s[0]] + RemoveChar(s[1..], c)
  }

  /** Lower-casing changes every character in place, adding or dropping
      none. */
  lemma {:induction false} LowerAt(s: string)
    ensures |Lower(s)| == |s|
    ensures forall i :: 0 <= i < |s| ==> Lower(s)[i] == LowerChar(s[i])
  {
    if s != [] {
      LowerAt(s[1..]);
    }
  }

  /** Replacing turns every `a` into `b` and leaves every other character
      where it is. */
  lemma {:induction false} ReplaceCharAt(s: string, a: char, b: char)
    ensures |ReplaceChar(s, a, b)| == |s|
    ensures forall i :: 0 <= i < |s| ==> ReplaceChar(s, a, b)[i] == if s[i] == a then b else s[i]
  {
    if s != [] {
      ReplaceCharAt(s[1..], a, b);
    }
  }

  /** Removing drops every `c` and keeps every other character as often as
      it occurs. */
  lemma {:induction false} RemoveCharCounts(s: string, c: char)
    ensures multiset(RemoveChar(s, c)) == multiset(s)[c := 0]
    ensures c !in RemoveChar(s, c)
  {
    if s != [] {
      RemoveCharCounts(s[1..], c);
      assert s == [s[0]] + s[1..];
    }
  }

  /** Removing works piece by piece, so the kept characters keep their
      order. */
  lemma {:induction false} RemoveCharAppend(s: string, t: string, c: char)
    ensures RemoveChar(s + t, c) == RemoveChar(s, c) + RemoveChar(t, c)
  {
    if s != [] {
      assert (s + t)[0] == s[0];
      assert (s + t)[1..] == s[1..] + t;
      RemoveCharAppend(s[1..], t, c);
    } else {
      assert s + t == t;
    }
  }

  /** A string without `c` is left as it is. */
  lemma {:induction false} RemoveCharAbsent(s: string, c: char)
    requires c !in s
    ensures RemoveChar(s, c) == s
  {
    if s != [] {
      RemoveCharAbsent(s[1..], c);
    }
  }

  lemma {:induction false} LowerAppend(s: string, t: string)
    ensures Lower(s + t) == Lower(s) + Lower(t)
  {
    if s != [] {
      assert (s + t)[0] == s[0];
      assert (s + t)[1..] == s[1..] + t;
      LowerAppend(s[1..], t);
    } else {
      assert s + t == t;
    }
  }

  lemma {:induction false} ReplaceCharAppend(s: string, t: string, a: char, b: char)
    ensures ReplaceChar(s + t, a, b) == ReplaceChar(s, a, b) + ReplaceChar(t, a, b)
  {
    if s != [] {
      assert (s + t)[0] == s[0];
      assert (s + t)[1..] == s[1..] + t;
      ReplaceCharAppend(s[1..], t, a, b);
    } else {
      assert s + t == t;
    }
  }
}
