/** Taking turns: lists that move their front to the back, and how often each position comes up. */
module Rotation {

  lemma {:induction false} AtLeast(n: nat, d: nat)
    requires d > 0
    ensures n * d >= n
  {
  }

  lemma Difference(n: nat, q: int, q': int)
    ensures n * (q - q') == n * q - n * q'
  {
  }

  lemma QuotientUnique(n: nat, q: int, r: int, q': int, r': int)
    requires 0 <= r < n && 0 <= r' < n && n * q + r == n * q' + r'
    ensures q == q' && r == r'
  {
    Difference(n, q, q');
    Difference(n, q', q);
    if q > q' {
      AtLeast(n, q - q');
      assert false;
    } else if q < q' {
      AtLeast(n, q' - q);
      assert false;
    }
  }

  /** Quotient and remainder of the next number. */
  lemma NextTurn(k: nat, n: nat)
    requires n > 0
    ensures (k + 1) % n == if k % n + 1 == n then 0 else k % n + 1
    ensures (k + 1) / n == if k % n + 1 == n then k / n + 1 else k / n
  {
    var q, r := k / n, k % n;
    assert k == n * q + r;
    if r + 1 == n {
      assert k + 1 == n * (q + 1) + 0;
      QuotientUnique(n, (k + 1) / n, (k + 1) % n, q + 1, 0);
    } else {
      QuotientUnique(n, (k + 1) / n, (k + 1) % n, q, r + 1);
    }
  }

  function Rotated<T>(s: seq<T>, k: nat): (r: seq<T>)
    ensures |r| == |s|
  {
    if s == [] then s else s[k % |s|..] + s[..k % |s|]
  }

  /** The list after its front has moved to the back. */
  function Advanced<T>(s: seq<T>): (r: seq<T>)
    ensures |r| == |s|
  {
    if s == [] then s else s[1..] + [s[0]]
  }

  lemma AdvancedKeeps<T>(s: seq<T>)
    ensures multiset(Advanced(s)) == multiset(s)
  {
    if s != [] {
      assert s == [s[0]] + s[1..];
    }
  }

  lemma AdvancedFrom<T>(s: seq<T>, i: nat)
    requires i < |s|
    ensures (s[i..] + s[..i])[0] == s[i]
    ensures Advanced(s[i..] + s[..i]) == s[i + 1..] + s[..i + 1]
  {
  }

  lemma RotatedOnce<T>(s: seq<T>, k: nat)
    requires s != []
    ensures Rotated(s, k)[0] == s[k % |s|]
    ensures Advanced(Rotated(s, k)) == Rotated(s, k + 1)
  {
    var i := k % |s|;
    NextTurn(k, |s|);
    AdvancedFrom(s, i);
    hide Advanced;
    if i + 1 == |s| {
      assert s[i + 1..] + s[..i + 1] == s == s[0..] + s[..0];
    }
  }

  lemma RotatedNot<T>(s: seq<T>)
    ensures Rotated(s, 0) == s
  {
  }

  /** How often position `j` of `n` comes up in the first `k` turns. */
  ghost function Turns(k: nat, n: nat, j: nat): nat
    requires n > 0
  {
    if k == 0 then 0 else Turns(k - 1, n, j) + if (k - 1) % n == j then 1 else 0
  }

  lemma {:induction false} TurnsExactly(k: nat, n: nat, j: nat)
    requires j < n
    ensures Turns(k, n, j) == k / n + if j < k % n then 1 else 0
    decreases k
  {
    if k == 0 {
      QuotientUnique(n, 0 / n, 0 % n, 0, 0);
    } else {
      TurnsExactly(k - 1, n, j);
      NextTurn(k - 1, n);
    }
  }

  /** No position is ever more than one turn ahead of another. */
  lemma TurnsEven(k: nat, n: nat, i: nat, j: nat)
    requires i < n && j < n
    ensures -1 <= Turns(k, n, i) - Turns(k, n, j) <= 1
  {
    TurnsExactly(k, n, i);
    TurnsExactly(k, n, j);
  }

  /** Number `i` of `picks`, counted from 0, is member number `i % |members|`. */
  ghost predicate InTurn<T>(members: seq<T>, picks: seq<T>)
    requires members != []
  {
    forall i | 0 <= i < |picks| :: picks[i] == members[i % |members|]
  }

  lemma InTurnSnoc<T>(members: seq<T>, picks: seq<T>)
    requires members != [] && InTurn(members, picks)
    ensures InTurn(members, picks + [members[|picks| % |members|]])
  {
  }

  ghost function Occurrences<T>(s: seq<T>, x: T): nat {
    if s == [] then 0 else Occurrences(s[..|s| - 1], x) + if s[|s| - 1] == x then 1 else 0
  }

  /** In a list taken from a rotation of distinct members, a member occurs as often as its turn came up. */
  lemma {:induction false} OccursInTurn<T>(picks: seq<T>, members: seq<T>, j: nat)
    requires j < |members| && forall a, b | 0 <= a < b < |members| :: members[a] != members[b]
    requires InTurn(members, picks)
    ensures Occurrences(picks, members[j]) == Turns(|picks|, |members|, j)
    decreases |picks|
  {
    if picks != [] {
      var k := |picks| - 1;
      OccursInTurn(picks[..k], members, j);
      assert picks[k] == members[k % |members|];
    }
  }
}
