/** The page elements whose `active` class the guide switches: sections,
    desktop and mobile navigation items, tab buttons, tab panels and filter
    tabs. Each is reduced to the attribute it is matched on (its `id`,
    `data-section`, `data-tab` or `data-filter`) and whether it carries the
    `active` class. */
module Elements {
  import opened Wrappers
  import opened Text

  /** `key` is None when the element does not carry the attribute, so that
      `getAttribute` gives null, which equals no string. */
  datatype Flag = Flag(key: Option<string>, active: bool)

  /** The attribute of every element, in document order. */
  function Keys(items: seq<Flag>): (ks: seq<Option<string>>)
    ensures |ks| == |items|
    ensures forall k :: 0 <= k < |items| ==> ks[k] == items[k].key
  {
    seq(|items|, k requires 0 <= k < |items| => items[k].key)
  }

  /** `document.getElementById(key)` within a group: the first element
      carrying that id, or -1. The empty string is no element's id, so it
      is never found. */
  function Lookup(items: seq<Flag>, key: string): (i: int)
    ensures -1 <= i < |items|
    ensures key == "" ==> i == -1
    ensures i == -1 <==> key == "" || forall k :: 0 <= k < |items| ==> items[k].key != Some(key)
    ensures 0 <= i ==> items[i].key == Some(key) && forall k :: 0 <= k < i ==> items[k].key != Some(key)
  {
    if key == "" then -1
    else
      var ks := Keys(items);
      var i := IndexOf(ks, Some(key));
      assert i != -1 ==> forall k :: 0 <= k < i ==> ks[..i][k] == items[k].key;
      assert i == -1 ==> forall k :: 0 <= k < |items| ==> ks[k] != Some(key);
      i
  }

  /** `out` is `items` with the same attributes, each active exactly when
      its attribute equals `key`. */
  ghost predicate MarkedFor(out: seq<Flag>, items: seq<Flag>, key: string) {
    |out| == |items| &&
    forall k :: 0 <= k < |items| ==> out[k] == Flag(items[k].key, items[k].key == Some(key))
  }

  /** `out` is `items` with exactly the element at `target` active. */
  ghost predicate OnlyActive(out: seq<Flag>, items: seq<Flag>, target: int) {
    |out| == |items| &&
    forall k :: 0 <= k < |items| ==> out[k] == Flag(items[k].key, k == target)
  }

  /** The positions of the active elements. */
  ghost function ActiveSet(items: seq<Flag>): set<int> {
    set k | 0 <= k < |items| && items[k].active
  }

  /** Exactly one element is active when only `target` was activated. */
  lemma OnlyActiveIsOne(out: seq<Flag>, items: seq<Flag>, target: int)
    requires 0 <= target < |items| && OnlyActive(out, items, target)
    ensures ActiveSet(out) == {target}
    ensures |ActiveSet(out)| == 1
  {
    assert target in ActiveSet(out);
  }

  /** The `forEach` that removes `active` from every element and adds it back
      where the attribute equals `key` (navigation items, tab buttons, filter
      tabs). */
  method MarkMatching(items: seq<Flag>, key: string) returns (out: seq<Flag>)
    ensures MarkedFor(out, items, key)
  {
    out := [];
    for k := 0 to |items|
      invariant |out| == k
      invariant forall j :: 0 <= j < k ==> out[j] == Flag(items[j].key, items[j].key == Some(key))
    {
      var item := items[k].(active := false);
      if item.key == Some(key) {
        item := item.(active := true);
      }
      out := out + [item];
    }
  }

  /** The `forEach` that removes `active` from every element (sections,
      tab panels), followed by adding it to the element at `target` when
      there is one. */
  method ActivateOnly(items: seq<Flag>, target: int) returns (out: seq<Flag>)
    requires -1 <= target < |items|
    ensures OnlyActive(out, items, target)
  {
    out := [];
    for k := 0 to |items|
      invariant |out| == k
      invariant forall j :: 0 <= j < k ==> out[j] == Flag(items[j].key, false)
    {
      out := out + [items[k].(active := false)];
    }
    if target != -1 {
      out := out[target := out[target].(active := true)];
    }
  }
}
