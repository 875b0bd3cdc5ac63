/** Text helpers standing in for the Java `String`/`StringBuilder` operations the core uses. */
module Strings {

  /** `s` occurs in `t` starting at index `i`. */
  predicate OccursAt(t: string, s: string, i: nat)
  {
    i + |s| <= |t| && t[i..i + |s|] == s
  }

  /** `t.contains(s)` */
  predicate Contains(t: string, s: string)
  {
    exists i: nat :: i <= |t| && OccursAt(t, s, i)
  }

  /** `t.startsWith(s)` */
  predicate StartsWith(t: string, s: string)
  {
    |s| <= |t| && t[..|s|] == s
  }

  /** The text a `StringBuilder` holds after appending `parts` in order. */
  function Concat(parts: seq<string>): (r: string)
  {
    if parts == [] then "" else parts[0] + Concat(parts[1..])
  }

  lemma {:induction false} ConcatAppend(a: seq<string>, b: seq<string>)
    ensures Concat(a + b) == Concat(a) + Concat(b)
  {
    if a == [] {
      assert a + b == b;
    } else {
      assert (a + b)[1..] == a[1..] + b;
      ConcatAppend(a[1..], b);
    }
  }

  lemma ConcatTwo(a: string, b: string)
    ensures Concat([a, b]) == a + b
  {
    assert [b][1..] == [] && Concat([b]) == b;
    assert [a, b][1..] == [b];
  }

  lemma ConcatThree(a: string, b: string, c: string)
    ensures Concat([a, b, c]) == a + b + c
  {
    ConcatTwo(b, c);
    assert [a, b, c][1..] == [b, c];
  }

  /** Cutting the parts at one of them. */
  lemma {:induction false} ConcatSplit(parts: seq<string>, i: nat)
    requires i < |parts|
    ensures Concat(parts) == Concat(parts[..i]) + parts[i] + Concat(parts[i + 1..])
  {
    if i == 0 {
      assert parts[..0] == [];
    } else {
      ConcatSplit(parts[1..], i - 1);
      assert parts[1..][..i - 1] == parts[1..i];
      assert parts[1..][i..] == parts[i + 1..];
      assert parts[..i][1..] == parts[1..i];
    }
  }

  /** The middle part of a concatenation occurs right after the first part. */
  lemma OccursInMiddle(a: string, x: string, b: string)
    ensures OccursAt(a + x + b, x, |a|)
  {
    assert (a + x + b)[|a|..|a| + |x|] == x;
  }

  /** `Character.toLowerCase` restricted to ASCII: 'A'..'Z' map to 'a'..'z', all else is kept. */
  function LowerChar(c: char): char
  {
    if 'A' <= c <= 'Z' then (c as int + 32) as char else c
  }

  /** `String.toLowerCase`, character by character. */
  function ToLower(s: string): (r: string)
    ensures |r| == |s|
    ensures forall i :: 0 <= i < |s| ==> r[i] == LowerChar(s[i])
  {
    if s == [] then [] else [LowerChar(s[0])] + ToLower(s[1..])
  }

  /** Lower-casing works piece by piece. */
  lemma {:induction false} ToLowerAppend(a: string, b: string)
    ensures ToLower(a + b) == ToLower(a) + ToLower(b)
  {
    if a == [] {
      assert a + b == b;
    } else {
      assert (a + b)[1..] == a[1..] + b;
      ToLowerAppend(a[1..], b);
    }
  }

  /** `s` occurs in `t` at index `i` when letter case is ignored. */
  predicate OccursAtIgnoringCase(t: string, s: string, i: nat)
  {
    i + |s| <= |t| && forall k :: 0 <= k < |s| ==> LowerChar(t[i + k]) == LowerChar(s[k])
  }

  /** Searching the lower-cased text for an all-lower-case word finds exactly the
      case-insensitive occurrences of that word. */
  lemma ContainsLowerIffIgnoringCase(t: string, w: string)
    requires forall k :: 0 <= k < |w| ==> LowerChar(w[k]) == w[k]
    ensures Contains(ToLower(t), w) <==> exists i: nat :: i <= |t| && OccursAtIgnoringCase(t, w, i)
  {
    if Contains(ToLower(t), w) {
      var i: nat :| i <= |ToLower(t)| && OccursAt(ToLower(t), w, i);
      LowerOccurrence(t, w, i);
    }
    if exists i: nat :: i <= |t| && OccursAtIgnoringCase(t, w, i) {
      var i: nat :| i <= |t| && OccursAtIgnoringCase(t, w, i);
      LowerOccurrence(t, w, i);
    }
  }

  /** At one index: the lower-cased text shows the word there iff the text shows it
      there up to letter case. */
  lemma LowerOccurrence(t: string, w: string, i: nat)
    requires forall k :: 0 <= k < |w| ==> LowerChar(w[k]) == w[k]
    ensures OccursAt(ToLower(t), w, i) <==> OccursAtIgnoringCase(t, w, i)
  {
    var lt := ToLower(t);
    if i + |w| <= |t| {
      var segment := lt[i..i + |w|];
      assert forall k :: 0 <= k < |w| ==> segment[k] == LowerChar(t[i + k]);
    }
  }

  /** An occurrence survives text being added on either side (the output of a process
      is the concatenation of the chunks it printed). */
  lemma ContainsInContext(a: string, t: string, b: string, s: string)
    requires Contains(t, s)
    ensures Contains(a + t + b, s)
  {
    var i: nat :| i <= |t| && OccursAt(t, s, i);
    assert (a + t + b)[|a| + i..|a| + i + |s|] == t[i..i + |s|];
    assert OccursAt(a + t + b, s, |a| + i);
  }

}
