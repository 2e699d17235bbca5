/** The favorites list: the prompt strings a user has starred, in the
    order they were added. `addFavorite` pushes a prompt only when it is
    absent; `removeFavorite` splices out its first occurrence. */
module Favorites {
  import opened Wrappers
  import opened Text

  /** No prompt is listed twice. */
  predicate Distinct(favs: seq<string>) {
    forall i, j :: 0 <= i < j < |favs| ==> favs[i] != favs[j]
  }

  /** `loadFavorites`: the stored list, or the empty list when the key is
      absent or its payload does not parse. */
  function Load(stored: Option<seq<string>>): seq<string> {
    stored.GetOr([])
  }

  /** The list after `addFavorite(p)`. */
  function Added(favs: seq<string>, p: string): seq<string> {
    if p in favs then favs else favs + [p]
  }

  /** The list after `removeFavorite(p)`. */
  function Removed(favs: seq<string>, p: string): seq<string> {
    var i := IndexOf(favs, p);
    if i == -1 then favs else favs[..i] + favs[i + 1..]
  }

  /** The list after a favorite button for `p` is clicked. */
  function Toggled(favs: seq<string>, p: string): seq<string> {
    if p in favs then Removed(favs, p) else Added(favs, p)
  }

  /** Adding makes `p` a member, appends it only when it was absent, and
      keeps a duplicate-free list duplicate-free. */
  lemma AddedSpec(favs: seq<string>, p: string)
    ensures p in Added(favs, p)
    ensures forall q :: q in Added(favs, p) <==> q in favs || q == p
    ensures p in favs ==> Added(favs, p) == favs
    ensures p !in favs ==> Added(favs, p) == favs + [p]
    ensures Distinct(favs) ==> Distinct(Added(favs, p))
  {
  }

  /** Removing deletes exactly the first occurrence of `p`, keeping every
      other element in its original relative order; an absent `p` leaves the
      list as it was. */
  lemma RemovedSpec(favs: seq<string>, p: string)
    ensures p !in favs ==> Removed(favs, p) == favs
    ensures p in favs ==>
      var i := IndexOf(favs, p);
      && |Removed(favs, p)| == |favs| - 1
      && p !in favs[..i]
      && (forall k :: 0 <= k < i ==> Removed(favs, p)[k] == favs[k])
      && (forall k :: i <= k < |favs| - 1 ==> Removed(favs, p)[k] == favs[k + 1])
  {
  }

  /** Removing takes away one copy of `p`, when there is one, and nothing
      else. */
  lemma RemovedMultiset(favs: seq<string>, p: string)
    ensures multiset(Removed(favs, p)) == multiset(favs) - multiset{p}
  {
    var i := IndexOf(favs, p);
    if i == -1 {
      assert multiset(favs)[p] == 0;
    } else {
      var a, b := favs[..i], favs[i + 1..];
      assert Removed(favs, p) == a + b;
      assert favs == a + ([p] + b);
      assert multiset(favs) == multiset(a) + multiset{p} + multiset(b);
    }
  }

  /** On a duplicate-free list, removing `p` keeps exactly the other
      members. */
  lemma RemovedMembers(favs: seq<string>, p: string)
    requires Distinct(favs)
    ensures forall q :: q in Removed(favs, p) <==> q in favs && q != p
  {
    var i := IndexOf(favs, p);
    if i != -1 {
      RemovedSpec(favs, p);
      var r := Removed(favs, p);
      forall q ensures q in r <==> q in favs && q != p {
        if q in r {
          var k :| 0 <= k < |r| && r[k] == q;
          if k < i {
            assert favs[k] == q && favs[..i][k] == q;
          } else {
            assert favs[k + 1] == q && favs[i] == p && i < k + 1;
          }
        }
        if q in favs && q != p {
          var k :| 0 <= k < |favs| && favs[k] == q;
          if k < i { assert r[k] == q; } else { assert r[k - 1] == q; }
        }
      }
    }
  }

  /** On a duplicate-free list, removing `p` leaves no `p` behind and keeps
      the list duplicate-free. */
  lemma RemovedDistinct(favs: seq<string>, p: string)
    requires Distinct(favs)
    ensures Distinct(Removed(favs, p))
    ensures p !in Removed(favs, p)
  {
    RemovedMembers(favs, p);
    var i := IndexOf(favs, p);
    if i != -1 {
      RemovedSpec(favs, p);
      var r := Removed(favs, p);
      forall a, b | 0 <= a < b < |r| ensures r[a] != r[b] {
        var fa := if a < i then a else a + 1;
        var fb := if b < i then b else b + 1;
        assert r[a] == favs[fa] && r[b] == favs[fb] && fa < fb;
      }
    }
  }

  /** Clicking a favorite button twice on a prompt that was not yet a
      favorite gives back exactly the original list. */
  lemma {:induction false} ToggleTwiceAbsent(favs: seq<string>, p: string)
    requires p !in favs
    ensures Toggled(favs, p) == favs + [p]
    ensures Toggled(Toggled(favs, p), p) == favs
  {
    var once := favs + [p];
    assert p in once;
    assert once[|favs|] == p;
    assert once[..|favs|] == favs;
    assert once[|favs| + 1..] == [];
  }

  /** Clicking it twice on a prompt that already was a favorite keeps the
      same members and moves the prompt to the end of the list. */
  lemma ToggleTwicePresent(favs: seq<string>, p: string)
    requires Distinct(favs) && p in favs
    ensures Toggled(Toggled(favs, p), p) == Removed(favs, p) + [p]
    ensures forall q :: q in Toggled(Toggled(favs, p), p) <==> q in favs
    ensures |Toggled(Toggled(favs, p), p)| == |favs|
    ensures Distinct(Toggled(Toggled(favs, p), p))
  {
    RemovedDistinct(favs, p);
    RemovedMembers(favs, p);
    RemovedSpec(favs, p);
    AddedSpec(Removed(favs, p), p);
  }

  /** Toggling keeps a duplicate-free list duplicate-free and flips membership. */
  lemma ToggledSpec(favs: seq<string>, p: string)
    requires Distinct(favs)
    ensures Distinct(Toggled(favs, p))
    ensures p in Toggled(favs, p) <==> p !in favs
  {
    if p in favs {
      RemovedDistinct(favs, p);
    } else {
      AddedSpec(favs, p);
    }
  }
}
