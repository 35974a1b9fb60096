/** Lists without repetition, as the allocators' intrusive lists are. */
module Lists {
  datatype Option<T> = None | Some(value: T)

  ghost predicate Distinct(s: seq<nat>) {
    forall i, j :: 0 <= i < j < |s| ==> s[i] != s[j]
  }

  ghost function Elems(s: seq<nat>): set<nat> {
    set b | b in s
  }

  function Without(s: seq<nat>, b: nat): seq<nat> {
    if s == [] then []
    else if s[0] == b then s[1..]
    else [s[0]] + Without(s[1..], b)
  }

  lemma {:induction false} WithoutFacts(s: seq<nat>, b: nat)
    requires Distinct(s)
    ensures Distinct(Without(s, b))
    ensures forall c: nat :: c in Without(s, b) <==> c in s && c != b
    ensures |Without(s, b)| == if b in s then |s| - 1 else |s|
  {
    if s != [] {
      assert s == [s[0]] + s[1..];
      assert forall c: nat :: c in s <==> c == s[0] || c in s[1..];
      assert s[0] !in s[1..];
      if s[0] != b {
        WithoutFacts(s[1..], b);
      }
    }
  }

  lemma {:induction false} WithoutAt(l: seq<nat>, i: nat)
    requires Distinct(l) && i < |l|
    ensures Without(l, l[i]) == l[..i] + l[i + 1..]
  {
    if i > 0 {
      WithoutAt(l[1..], i - 1);
      assert l[1..][i - 1] == l[i] && l[1..][..i - 1] == l[1..i] && l[1..][i..] == l[i + 1..];
      assert l[..i] == [l[0]] + l[1..i];
    }
  }
}
