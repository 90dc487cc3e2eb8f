/** Lists without duplicates, as the kernel's linked lists are used, and counting by sets. */
module Lists {

  datatype Option<T> = None | Some(value: T)

  ghost predicate NoDup(s: seq<nat>) { forall i, j :: 0 <= i < j < |s| ==> s[i] != s[j] }

  /** list_remove */
  function Without(s: seq<nat>, x: nat): seq<nat> {
    if s == [] then [] else if s[0] == x then s[1..] else [s[0]] + Without(s[1..], x)
  }

  lemma {:induction false} WithoutElems(s: seq<nat>, x: nat)
    requires NoDup(s)
    ensures NoDup(Without(s, x)) && |Without(s, x)| == |s| - One(x in s)
    ensures forall y :: y in Without(s, x) <==> y in s && y != x
  {
    if s != [] {
      assert s == [s[0]] + s[1..];
      assert s[0] !in s[1..];
      WithoutElems(s[1..], x);
    }
  }

  function One(b: bool): nat { if b then 1 else 0 }

  /** Sets that differ in one element at most. */
  lemma {:induction false} Swap(a: set<nat>, b: set<nat>, t: nat)
    requires forall x | x != t :: x in a <==> x in b
    ensures |b| == |a| - One(t in a) + One(t in b)
  {
    assert b == if t in b then a - {t} + {t} else a - {t};
  }

  /** x stands before y. */
  ghost predicate Ahead(s: seq<nat>, x: nat, y: nat) { exists i, j :: 0 <= i < j < |s| && s[i] == x && s[j] == y }

  lemma {:induction false} AheadAppend(s: seq<nat>, x: nat, y: nat, z: nat)
    ensures Ahead(s, x, y) ==> Ahead(s + [z], x, y)
    ensures x in s ==> Ahead(s + [z], x, z)
  {
    if Ahead(s, x, y) {
      var i, j :| 0 <= i < j < |s| && s[i] == x && s[j] == y;
      assert (s + [z])[i] == x && (s + [z])[j] == y;
    }
    if x in s {
      var i :| 0 <= i < |s| && s[i] == x;
      assert (s + [z])[i] == x && (s + [z])[|s|] == z;
    }
  }

  lemma {:induction false} AheadWithout(s: seq<nat>, x: nat, y: nat, z: nat)
    requires Ahead(s, x, y) && z != x && z != y
    ensures Ahead(Without(s, z), x, y)
  {
    var i, j :| 0 <= i < j < |s| && s[i] == x && s[j] == y;
    if s[0] == z {
      assert s[1..][i - 1] == x && s[1..][j - 1] == y;
    } else if i == 0 {
      WithoutKeeps(s[1..], y, z, j - 1);
      var k :| 0 <= k < |Without(s[1..], z)| && Without(s[1..], z)[k] == y;
      assert Without(s, z)[0] == x && Without(s, z)[k + 1] == y;
    } else {
      assert s[1..][i - 1] == x && s[1..][j - 1] == y;
      AheadWithout(s[1..], x, y, z);
      var k, l :| 0 <= k < l < |Without(s[1..], z)| && Without(s[1..], z)[k] == x && Without(s[1..], z)[l] == y;
      assert Without(s, z)[k + 1] == x && Without(s, z)[l + 1] == y;
    }
  }

  lemma {:induction false} WithoutKeeps(s: seq<nat>, y: nat, z: nat, j: nat)
    requires j < |s| && s[j] == y && z != y
    ensures y in Without(s, z)
  {
    if s[0] == z {
      assert s[1..][j - 1] == y;
    } else if j > 0 {
      WithoutKeeps(s[1..], y, z, j - 1);
    }
  }
}
