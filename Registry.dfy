/**
 * The workspace registry: the `workspaces: LinkedHashSet<String>` field of
 * `Program` (src/main.rs:10), modelled as a duplicate-free sequence in
 * iteration order, oldest first.
 *
 * `LinkedHashSet::insert` of the `linked_hash_set` crate always leaves the
 * inserted value at the back, also when it was already a member: a present
 * value is moved to the end. The switcher relies on this, so `Insert` is
 * "remove `x` if present, then append `x`".
 */
module Registry {

  /** No workspace name occurs twice. */
  predicate NoDup(r: seq<string>) {
    forall i, j :: 0 <= i < j < |r| ==> r[i] != r[j]
  }

  /** `r` without `x`, every other member kept in its order. */
  function Remove(r: seq<string>, x: string): (t: seq<string>)
    ensures forall y :: y in t <==> y in r && y != x
    ensures |t| <= |r|
  {
    if r == [] then []
    else if r[0] == x then Remove(r[1..], x)
    else [r[0]] + Remove(r[1..], x)
  }

  /** `LinkedHashSet::insert`: `x` becomes the last member, whether or not it was present. */
  function Insert(r: seq<string>, x: string): (t: seq<string>)
    ensures |t| > 0 && t[|t| - 1] == x
    ensures forall y :: y in t <==> y in r || y == x
    ensures NoDup(r) ==> NoDup(t)
  {
    InsertNoDup(r, x);
    Remove(r, x) + [x]
  }

  lemma InsertNoDup(r: seq<string>, x: string)
    ensures NoDup(r) ==> NoDup(Remove(r, x) + [x])
  {
    if NoDup(r) {
      RemoveNoDup(r, x);
      AppendFresh(Remove(r, x), x);
    }
  }

  lemma AppendFresh(t: seq<string>, x: string)
    requires NoDup(t) && x !in t
    ensures NoDup(t + [x])
  {
    forall i, j | 0 <= i < j < |t| + 1
      ensures (t + [x])[i] != (t + [x])[j]
    {
      if j == |t| {
        assert t[i] in t;
      }
    }
  }

  lemma {:induction false} RemoveNoDup(r: seq<string>, x: string)
    requires NoDup(r)
    ensures NoDup(Remove(r, x))
  {
    if r != [] {
      assert NoDup(r[1..]) by {
        forall i, j | 0 <= i < j < |r| - 1 ensures r[1..][i] != r[1..][j] {
          assert r[i + 1] != r[j + 1];
        }
      }
      RemoveNoDup(r[1..], x);
      if r[0] != x {
        var t := Remove(r[1..], x);
        assert r[0] !in r[1..] by {
          forall k | 0 <= k < |r| - 1 ensures r[1..][k] != r[0] {
            assert r[0] != r[k + 1];
          }
        }
        assert r[0] !in t;
        forall i, j | 0 <= i < j < |t| + 1
          ensures ([r[0]] + t)[i] != ([r[0]] + t)[j]
        {
          if i == 0 {
            assert t[j - 1] in t;
          } else {
            assert ([r[0]] + t)[i] == t[i - 1] && ([r[0]] + t)[j] == t[j - 1];
          }
        }
      }
    }
  }

  /** Removing a name that is not a member changes nothing. */
  lemma {:induction false} RemoveAbsent(r: seq<string>, x: string)
    requires x !in r
    ensures Remove(r, x) == r
  {
    if r != [] {
      assert x !in r[1..];
      RemoveAbsent(r[1..], x);
      assert [r[0]] + r[1..] == r;
    }
  }

  /** In a duplicate-free registry, removing a member shortens it by exactly one. */
  lemma {:induction false} RemoveMember(r: seq<string>, x: string)
    requires NoDup(r) && x in r
    ensures |Remove(r, x)| == |r| - 1
  {
    if r[0] == x {
      assert x !in r[1..] by {
        forall k | 0 <= k < |r| - 1 ensures r[1..][k] != x {
          assert r[0] != r[k + 1];
        }
      }
      RemoveAbsent(r[1..], x);
    } else {
      assert NoDup(r[1..]) by {
        forall i, j | 0 <= i < j < |r| - 1 ensures r[1..][i] != r[1..][j] {
          assert r[i + 1] != r[j + 1];
        }
      }
      RemoveMember(r[1..], x);
    }
  }

  /** Removal distributes over concatenation. */
  lemma {:induction false} RemoveAppend(a: seq<string>, b: seq<string>, x: string)
    ensures Remove(a + b, x) == Remove(a, x) + Remove(b, x)
  {
    if a == [] {
      assert a + b == b;
    } else {
      assert (a + b)[1..] == a[1..] + b;
      RemoveAppend(a[1..], b, x);
    }
  }

  /** Inserting a new name appends it, keeping the old registry as a prefix. */
  lemma InsertAbsent(r: seq<string>, x: string)
    requires x !in r
    ensures Insert(r, x) == r + [x]
  {
    RemoveAbsent(r, x);
  }

  /** The registry grows by one for a new name and keeps its length for a known one. */
  lemma InsertLength(r: seq<string>, x: string)
    ensures x !in r ==> |Insert(r, x)| == |r| + 1
    ensures NoDup(r) && x in r ==> |Insert(r, x)| == |r|
  {
    if x in r {
      if NoDup(r) {
        RemoveMember(r, x);
      }
    } else {
      RemoveAbsent(r, x);
    }
  }

  /** Insertion leaves the relative order of all other members unchanged. */
  lemma InsertKeepsOthers(r: seq<string>, x: string)
    ensures Remove(Insert(r, x), x) == Remove(r, x)
  {
    RemoveAppend(Remove(r, x), [x], x);
    RemoveAbsent(Remove(r, x), x);
    assert Remove([x], x) == [];
  }

  /** Inserting the name that is already last changes nothing. */
  lemma InsertLast(r: seq<string>, x: string)
    requires NoDup(r) && |r| > 0 && r[|r| - 1] == x
    ensures Insert(r, x) == r
  {
    var init := r[..|r| - 1];
    assert r == init + [x];
    assert x !in init by {
      forall k | 0 <= k < |init| ensures init[k] != x {
        assert r[k] != r[|r| - 1];
      }
    }
    RemoveAppend(init, [x], x);
    RemoveAbsent(init, x);
    assert Remove([x], x) == [];
  }

  /** Inserting the same name twice is the same as inserting it once. */
  lemma InsertIdempotent(r: seq<string>, x: string)
    ensures Insert(Insert(r, x), x) == Insert(r, x)
  {
    InsertKeepsOthers(r, x);
  }
}
