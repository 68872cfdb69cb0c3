/** Lists without repetition, and lists threaded through a table of links. */
module Lists {

  const NULL := -1

  ghost predicate Distinct<T>(s: seq<T>) {
    forall i, j :: 0 <= i < j < |s| ==> s[i] != s[j]
  }

  /** The first element equal to `t` is removed, if there is one. */
  function Without(s: seq<nat>, t: nat): (r: seq<nat>)
    ensures |r| <= |s|
  {
    if s == [] then [] else if s[0] == t then s[1..] else [s[0]] + Without(s[1..], t)
  }

  lemma {:induction false} WithoutFacts(s: seq<nat>, t: nat, k: nat)
    requires Distinct(s)
    ensures forall x :: x in Without(s, t) <==> x in s && x != t
    ensures Distinct(Without(s, t)) && |Without(s, t)| == |s| - if t in s then 1 else 0
    ensures k < |s| && s[k] == t ==> Without(s, t) == s[..k] + s[k + 1..]
  {
    if s != [] {
      var r := s[1..];
      assert forall x :: x in s <==> x == s[0] || x in r;
      assert Distinct(r);
      WithoutFacts(r, t, if k > 0 then k - 1 else 0);
      assert s[0] !in r && s[0] !in Without(r, t);
      assert Distinct([s[0]] + Without(r, t)) by {
        assert forall i :: 0 <= i < |Without(r, t)| ==> Without(r, t)[i] in Without(r, t);
      }
      if k > 0 && k < |s| && s[k] == t {
        assert r[k - 1] == t && s[..k] == [s[0]] + r[..k - 1] && s[k + 1..] == r[k..];
      }
    }
  }

  /** Removing an element moves no other element back. */
  lemma {:induction false} WithoutPosition(s: seq<nat>, t: nat, k: nat)
    requires Distinct(s) && k < |s| && s[k] != t
    ensures var r := Without(s, t);
            (k < |r| && r[k] == s[k]) || (0 < k && k - 1 < |r| && r[k - 1] == s[k])
  {
    if k > 0 && s[0] != t {
      assert Distinct(s[1..]);
      WithoutPosition(s[1..], t, k - 1);
    }
  }

  lemma {:induction false} WithoutAbsent(s: seq<nat>, t: nat)
    requires t !in s
    ensures Without(s, t) == s
  {
    if s != [] {
      WithoutAbsent(s[1..], t);
    }
  }

  // ------------------------------------------------------------- linked lists

  function At(s: seq<nat>, i: nat): int {
    if i < |s| then s[i] else NULL
  }

  /** Following `next` from `first` visits exactly `s`. */
  ghost predicate Linked(next: seq<int>, first: int, s: seq<nat>) {
    && (forall i :: 0 <= i < |s| ==> s[i] < |next|)
    && first == At(s, 0)
    && (forall i {:trigger next[s[i]]} :: 0 <= i < |s| ==> next[s[i]] == At(s, i + 1))
  }

  lemma LinkedAt(next: seq<int>, first: int, s: seq<nat>, k: nat)
    requires Linked(next, first, s) && k < |s|
    ensures s[k] < |next| && next[s[k]] == At(s, k + 1)
  {
  }

  lemma LinkedFrame(next: seq<int>, next': seq<int>, first: int, s: seq<nat>)
    requires Linked(next, first, s) && |next| <= |next'|
    requires forall x :: x in s && x < |next| ==> next'[x] == next[x]
    ensures Linked(next', first, s)
  {
    forall i | 0 <= i < |s| ensures next'[s[i]] == At(s, i + 1) {
      assert s[i] in s;
    }
  }

  lemma LinkedPush(next: seq<int>, first: int, s: seq<nat>, t: nat)
    requires Linked(next, first, s) && t < |next| && t !in s
    ensures Linked(next[t := first], t, [t] + s)
  {
    var next', s' := next[t := first], [t] + s;
    forall i | 0 <= i < |s'| ensures next'[s'[i]] == At(s', i + 1) {
      if i > 0 { assert s'[i] == s[i - 1] && s[i - 1] in s; }
    }
  }

  /** The links after `t` is appended. */
  function Appended(next: seq<int>, s: seq<nat>, t: nat): (next': seq<int>)
    requires t < |next| && forall i :: 0 <= i < |s| ==> s[i] < |next|
    ensures |next'| == |next| && forall x :: 0 <= x < |next| && x != t && x !in s ==> next'[x] == next[x]
  {
    if s == [] then next[t := NULL] else next[t := NULL][s[|s| - 1] := t]
  }

  lemma LinkedAppend(next: seq<int>, first: int, s: seq<nat>, t: nat)
    requires Linked(next, first, s) && Distinct(s) && t < |next| && t !in s
    ensures Linked(Appended(next, s, t), if s == [] then t else first, s + [t])
  {
    var s', next' := s + [t], Appended(next, s, t);
    forall i | 0 <= i < |s'| ensures s'[i] < |next| && next'[s'[i]] == At(s', i + 1) {
      if i < |s| { assert s[i] in s; }
    }
  }

  /** The links after the element at position `k` is unlinked. */
  function UnlinkedAt(next: seq<int>, s: seq<nat>, k: nat): (next': seq<int>)
    requires k < |s| && forall i :: 0 <= i < |s| ==> s[i] < |next|
    ensures |next'| == |next| && forall x :: 0 <= x < |next| && x !in s ==> next'[x] == next[x]
  {
    if k == 0 then next[s[k] := NULL] else next[s[k - 1] := next[s[k]]][s[k] := NULL]
  }

  lemma LinkedUnlink(next: seq<int>, first: int, s: seq<nat>, k: nat)
    requires Linked(next, first, s) && Distinct(s) && k < |s|
    ensures Linked(UnlinkedAt(next, s, k), if k == 0 then next[s[0]] else first, s[..k] + s[k + 1..])
  {
    var s', next' := s[..k] + s[k + 1..], UnlinkedAt(next, s, k);
    forall i | 0 <= i < |s'| ensures s'[i] < |next| && next'[s'[i]] == At(s', i + 1) {
      if i + 1 < k {
        assert s[i] != s[k] && s[i] != s[k - 1];
        assert s'[i] == s[i] && next'[s[i]] == next[s[i]] && At(s', i + 1) == s[i + 1];
      } else if i + 1 == k {
        assert s'[i] == s[i] && next'[s[i]] == next[s[k]] && At(s', i + 1) == At(s, k + 1);
      } else {
        assert s[i + 1] != s[k] && (k == 0 || s[i + 1] != s[k - 1]);
        assert s'[i] == s[i + 1] && next'[s[i + 1]] == next[s[i + 1]] && At(s', i + 1) == At(s, i + 2);
      }
    }
  }

  /** The links after the first element is moved to the end. */
  function RotatedLinks(next: seq<int>, s: seq<nat>): (next': seq<int>)
    requires 0 < |s| && forall i :: 0 <= i < |s| ==> s[i] < |next|
    ensures |next'| == |next| && forall x :: 0 <= x < |next| && x !in s ==> next'[x] == next[x]
  {
    if |s| == 1 then next[s[0] := NULL] else next[s[0] := NULL][s[|s| - 1] := s[0]]
  }

  lemma LinkedRotate(next: seq<int>, first: int, s: seq<nat>)
    requires Linked(next, first, s) && Distinct(s) && 0 < |s|
    ensures Linked(RotatedLinks(next, s), At(s[1..] + [s[0]], 0), s[1..] + [s[0]])
  {
    var s', next' := s[1..] + [s[0]], RotatedLinks(next, s);
    forall i | 0 <= i < |s'| ensures s'[i] < |next| && next'[s'[i]] == At(s', i + 1) {
      if i + 1 < |s| {
        assert s'[i] == s[i + 1] && s[i + 1] != s[0] && next[s[i + 1]] == At(s, i + 2);
        if i + 2 < |s| { assert s[i + 1] != s[|s| - 1] && At(s', i + 1) == s[i + 2]; }
      } else if |s| > 1 {
        assert s[0] != s[|s| - 1];
      }
    }
  }

  lemma ListEnds(next: seq<int>, first: int, s: seq<nat>)
    requires Linked(next, first, s)
    ensures first == At(s, 0) && forall i :: 0 <= i < |s| ==> s[i] < |next|
    ensures s != [] ==> next[s[0]] == At(s, 1)
  {
  }
}
