/**
  What the other modules share: options, ASCII string helpers in the sense of Go's `strings`, selection of
  rows, map iteration.
 */
module Text {

  datatype Option<+T> = None | Some(value: T)

  function LowerChar(c: char): (r: char)
    ensures 'A' <= c <= 'Z' ==> 'a' <= r <= 'z'
  {
    if 'A' <= c <= 'Z' then c - 'A' + 'a' else c
  }

  function UpperChar(c: char): (r: char)
    ensures 'a' <= c <= 'z' ==> 'A' <= r <= 'Z'
  {
    if 'a' <= c <= 'z' then c - 'a' + 'A' else c
  }

  function ToLower(s: string): (r: string)
    ensures |r| == |s|
  {
    seq(|s|, i requires 0 <= i < |s| => LowerChar(s[i]))
  }

  function ToUpper(s: string): (r: string)
    ensures |r| == |s|
  {
    seq(|s|, i requires 0 <= i < |s| => UpperChar(s[i]))
  }

  /** No letter is upper case. */
  predicate IsLower(s: string) {
    forall i :: 0 <= i < |s| ==> LowerChar(s[i]) == s[i]
  }

  predicate IsSpace(c: char) {
    c == ' ' || '\t' <= c <= '\r'
  }

  function TrimLeftSpace(s: string): string {
    if s != [] && IsSpace(s[0]) then TrimLeftSpace(s[1..]) else s
  }

  function TrimRightSpace(s: string): string {
    if s != [] && IsSpace(s[|s| - 1]) then TrimRightSpace(s[..|s| - 1]) else s
  }

  function TrimSpace(s: string): string {
    TrimRightSpace(TrimLeftSpace(s))
  }

  predicate AllSpace(s: string) {
    forall i :: 0 <= i < |s| ==> IsSpace(s[i])
  }

  lemma {:induction false} TrimLeftAround(left: string, s: string)
    requires AllSpace(left)
    ensures TrimLeftSpace(left + s) == TrimLeftSpace(s)
  {
    if left == [] {
      assert left + s == s;
    } else {
      TrimLeftAround(left[1..], s);
      assert (left + s)[1..] == left[1..] + s;
    }
  }

  lemma {:induction false} TrimRightAround(s: string, right: string)
    requires AllSpace(right)
    ensures TrimRightSpace(s + right) == TrimRightSpace(s)
  {
    if right == [] {
      assert s + right == s;
    } else {
      var n := |right| - 1;
      TrimRightAround(s, right[..n]);
      assert (s + right)[..|s + right| - 1] == s + right[..n];
    }
  }

  /** A string without space at its ends is what trimming leaves, whatever space is put around it. */
  lemma TrimAround(left: string, s: string, right: string)
    requires AllSpace(left) && AllSpace(right) && s != [] && !IsSpace(s[0]) && !IsSpace(s[|s| - 1])
    ensures TrimSpace(left + s + right) == s
  {
    assert left + s + right == left + (s + right);
    TrimLeftAround(left, s + right);
    TrimRightAround(s, right);
  }

  /** The key under which the managers file a name: trimmed and lower-cased. */
  function Fold(s: string): string {
    ToLower(TrimSpace(s))
  }

  /** Some element of a set: Go ranges over a map in no particular order. */
  method Pick<T>(s: set<T>) returns (x: T)
    requires s != {}
    ensures x in s
  {
    x :| x in s;
  }

  /** The rows that satisfy p, in order. */
  function Select<T>(rows: seq<T>, p: T -> bool): seq<T> {
    if rows == [] then []
    else Select(rows[..|rows| - 1], p) + if p(rows[|rows| - 1]) then [rows[|rows| - 1]] else []
  }

  lemma SelectNext<T>(rows: seq<T>, n: nat, p: T -> bool)
    requires n < |rows|
    ensures Select(rows[..n + 1], p) == Select(rows[..n], p) + if p(rows[n]) then [rows[n]] else []
  {
    assert rows[..n + 1][..n] == rows[..n];
  }

  lemma {:induction false} SelectMembers<T>(rows: seq<T>, p: T -> bool, x: T)
    ensures x in Select(rows, p) <==> x in rows && p(x)
  {
    if rows != [] {
      SelectMembers(rows[..|rows| - 1], p, x);
      assert rows == rows[..|rows| - 1] + [rows[|rows| - 1]];
    }
  }

  /** Where the rows that satisfy p are. */
  function Places<T>(rows: seq<T>, p: T -> bool): (at: seq<nat>)
    ensures forall k: nat :: k in at <==> k < |rows| && p(rows[k])
    ensures forall i, j :: 0 <= i < j < |at| ==> at[i] < at[j]
  {
    if rows == [] then []
    else
      var n := |rows| - 1;
      var before := Places(rows[..n], p);
      assert forall k: nat :: k < n ==> rows[..n][k] == rows[k];
      assert forall i :: 0 <= i < |before| ==> before[i] in before;
      if p(rows[n]) then before + [n] else before
  }

  /** The selection is the rows at those places, in the order of the rows. */
  lemma {:induction false} SelectInOrder<T>(rows: seq<T>, p: T -> bool)
    ensures |Places(rows, p)| == |Select(rows, p)|
    ensures forall i :: 0 <= i < |Places(rows, p)| ==>
      Places(rows, p)[i] in Places(rows, p) && Select(rows, p)[i] == rows[Places(rows, p)[i]]
  {
    if rows != [] {
      var n := |rows| - 1;
      SelectInOrder(rows[..n], p);
      var before := Places(rows[..n], p);
      assert Places(rows, p) == before + if p(rows[n]) then [n] else [];
      forall i | 0 <= i < |before| ensures Select(rows, p)[i] == rows[before[i]] {
        assert before[i] in before && rows[..n][before[i]] == rows[before[i]];
      }
    }
  }

  /** Folding forgets the space around a name and its letter case, and nothing else. */
  lemma FoldForgets(left: string, name: string, right: string)
    requires AllSpace(left) && AllSpace(right) && name != [] && !IsSpace(name[0]) && !IsSpace(name[|name| - 1])
    ensures Fold(left + name + right) == ToLower(name)
    ensures IsLower(Fold(left + name + right)) && ToLower(ToUpper(name)) == ToLower(name)
  {
    TrimAround(left, name, right);
  }
}
