/**
 * `MiniAtomsStorageService`: the current app and the app history, kept in two slots of
 * a key-value storage backend. The backend itself is two fields; `generateUuid()` and
 * `new Date().toISOString()` are passed in as `freshId` and `createdAt`.
 */
module MiniAtomsStorage {
  import opened Wrappers
  import opened Seqs
  import opened OrchestratorTypes

  /** The history never keeps more than this many apps. */
  const HistoryLimit: nat := 50

  /** What the history slot holds: nothing yet, a list, or something else written by other code. */
  datatype AppsSlot = Unset | AppList(apps: seq<StoredApp>) | NotAList

  /** `list.filter(a => a.id !== id)` */
  function WithoutId(list: seq<StoredApp>, id: string): (r: seq<StoredApp>)
    ensures forall a :: a in r ==> a in list && a.id != id
    ensures forall a :: a in list && a.id != id ==> a in r
  {
    FilterFacts(list, (a: StoredApp) => a.id != id);
    Filter(list, (a: StoredApp) => a.id != id)
  }

  /** `s.slice(0, n)` */
  function Take<T>(s: seq<T>, n: nat): (r: seq<T>)
    ensures |r| == if |s| <= n then |s| else n
    ensures r == s[..|r|]
  {
    if |s| <= n then s else s[..n]
  }

  /** `[stored, ...list.filter(a => a.id !== stored.id)].slice(0, 50)` */
  function WithNewest(stored: StoredApp, list: seq<StoredApp>): (r: seq<StoredApp>)
    ensures 1 <= |r| <= HistoryLimit && r[0] == stored
    ensures forall a :: a in r[1..] ==> a in list && a.id != stored.id
  {
    var r := Take([stored] + WithoutId(list, stored.id), HistoryLimit);
    assert r[1..] == WithoutId(list, stored.id)[..|r| - 1];
    r
  }

  /** The index at which `list.find(a => a.id === id)` stops, or nothing when no entry has that id. */
  function IndexOfId(list: seq<StoredApp>, id: string): (r: Option<nat>)
    ensures r.Some? ==> r.value < |list| && list[r.value].id == id
    ensures r.Some? ==> forall j :: 0 <= j < r.value ==> list[j].id != id
    ensures r.None? ==> forall j :: 0 <= j < |list| ==> list[j].id != id
  {
    if list == [] then None
    else if list[0].id == id then Some(0)
    else match IndexOfId(list[1..], id)
      case None => None
      case Some(k) => Some(k + 1)
  }

  /** `list.find(a => a.id === id)` */
  function FindById(list: seq<StoredApp>, id: string): (r: Option<StoredApp>)
    ensures r.Some? ==> r.value.id == id
    ensures r.Some? ==> exists i :: 0 <= i < |list| && list[i] == r.value && forall j :: 0 <= j < i ==> list[j].id != id
    ensures r.None? ==> forall a :: a in list ==> a.id != id
  {
    match IndexOfId(list, id)
    case None => None
    case Some(i) => Some(list[i])
  }

  class AppStorage {
    /** The `current` slot; `None` once cleared with `undefined`. */
    var current: Option<StoredApp>
    /** The `apps` slot. */
    var appsSlot: AppsSlot

    constructor (current: Option<StoredApp>, appsSlot: AppsSlot)
      ensures this.current == current && this.appsSlot == appsSlot
    {
      this.current := current;
      this.appsSlot := appsSlot;
    }

    /** `getCurrent()` */
    function GetCurrent(): (r: Option<StoredApp>)
      reads this
      ensures r == current
    {
      current
    }

    /** `listHistory()`: the stored list, or `[]` when the slot is unset or not a list. */
    function ListHistory(): (r: seq<StoredApp>)
      reads this
      ensures appsSlot.AppList? ==> r == appsSlot.apps
      ensures !appsSlot.AppList? ==> r == []
    {
      match appsSlot
      case AppList(apps) => apps
      case _ => []
    }

    /** `getById(id)`: the first history entry with that id. */
    function GetById(id: string): (r: Option<StoredApp>)
      reads this
      ensures r.Some? ==> r.value in ListHistory() && r.value.id == id
      ensures r.Some? ==>
        exists i :: 0 <= i < |ListHistory()| && ListHistory()[i] == r.value && forall j :: 0 <= j < i ==> ListHistory()[j].id != id
      ensures r.None? ==> forall a :: a in ListHistory() ==> a.id != id
    {
      FindById(ListHistory(), id)
    }

    /** `saveCurrent({description, html})` */
    method SaveCurrent(description: string, html: string, freshId: string, createdAt: string)
      returns (stored: StoredApp)
      modifies this
      ensures stored == StoredApp(freshId, description, html, createdAt)
      ensures current == Some(stored) && GetCurrent() == Some(stored)
      ensures appsSlot == AppList(WithNewest(stored, old(ListHistory())))
      ensures GetById(stored.id) == Some(stored)
    {
      stored := StoredApp(freshId, description, html, createdAt);
      current := Some(stored);
      var list := ListHistory();
      var next := WithNewest(stored, list);
      appsSlot := AppList(next);
      assert next[0] == stored;
    }

    /** `deleteById(id)` */
    method DeleteById(id: string)
      modifies this
      ensures appsSlot == AppList(WithoutId(old(ListHistory()), id))
      ensures old(current).Some? && old(current).value.id == id ==> current == None
      ensures !(old(current).Some? && old(current).value.id == id) ==> current == old(current)
      ensures GetById(id) == None
    {
      var list := WithoutId(ListHistory(), id);
      FilterFacts(ListHistory(), (a: StoredApp) => a.id != id);
      appsSlot := AppList(list);
      var cur := GetCurrent();
      if cur.Some? && cur.value.id == id {
        current := None;
      }
    }
  }
}

/** What `saveCurrent`, `getById` and `deleteById` promise about the history. */
module MiniAtomsStorageProperties {
  import opened Wrappers
  import opened Seqs
  import opened OrchestratorTypes
  import opened MiniAtomsStorage

  /** No two history entries share an id. */
  predicate DistinctIds(list: seq<StoredApp>) {
    forall i, j :: 0 <= i < j < |list| ==> list[i].id != list[j].id
  }

  /**
   * Removing an id keeps every other entry, as often as it occurred and in order, and
   * leaves nothing with that id to be found.
   */
  lemma WithoutIdFacts(list: seq<StoredApp>, id: string, a: StoredApp)
    ensures FindById(WithoutId(list, id), id) == None
    ensures IsSubsequence(WithoutId(list, id), list)
    ensures multiset(WithoutId(list, id))[a] == if a.id == id then 0 else multiset(list)[a]
  {
    var keep := (a: StoredApp) => a.id != id;
    assert WithoutId(list, id) == Filter(list, keep);
    FilterFacts(list, keep);
    FilterIsSubsequence(list, keep);
    FilterCount(list, keep, a);
  }

  /** An entry whose id no other entry has can be put in front of distinct entries. */
  lemma ConsDistinct(x: StoredApp, rest: seq<StoredApp>)
    requires DistinctIds(rest)
    requires forall y :: y in rest ==> y.id != x.id
    ensures DistinctIds([x] + rest)
  {
    var r := [x] + rest;
    forall i, j | 0 <= i < j < |r| ensures r[i].id != r[j].id {
      assert r[j] == rest[j - 1];
      if i > 0 {
        assert r[i] == rest[i - 1];
      }
    }
  }

  /** Removing an id keeps the ids distinct. */
  lemma {:induction false} WithoutIdKeepsDistinct(list: seq<StoredApp>, id: string)
    requires DistinctIds(list)
    ensures DistinctIds(WithoutId(list, id))
  {
    var keep := (a: StoredApp) => a.id != id;
    assert WithoutId(list, id) == Filter(list, keep);
    if list != [] {
      var tail := list[1..];
      assert DistinctIds(tail) by {
        forall i, j | 0 <= i < j < |tail| ensures tail[i].id != tail[j].id {
          assert tail[i] == list[i + 1] && tail[j] == list[j + 1];
        }
      }
      WithoutIdKeepsDistinct(tail, id);
      assert WithoutId(tail, id) == Filter(tail, keep);
      if keep(list[0]) {
        FilterFacts(tail, keep);
        forall y | y in Filter(tail, keep) ensures y.id != list[0].id {
          var k :| 0 <= k < |tail| && tail[k] == y;
          assert list[k + 1] == y;
        }
        ConsDistinct(list[0], Filter(tail, keep));
        assert Filter(list, keep) == [list[0]] + Filter(tail, keep);
      } else {
        assert Filter(list, keep) == Filter(tail, keep);
      }
    }
  }

  /**
   * `saveCurrent` puts the new entry first, drops any older entry with its id, keeps the
   * remaining entries in order, and caps the history at 50 entries.
   */
  lemma WithNewestFacts(stored: StoredApp, list: seq<StoredApp>)
    ensures var r := WithNewest(stored, list);
      && 1 <= |r| <= HistoryLimit
      && r[0] == stored
      && FindById(r, stored.id) == Some(stored)
      && (forall i :: 1 <= i < |r| ==> r[i].id != stored.id)
      && IsSubsequence(r[1..], list)
      && |r| == if 1 + |WithoutId(list, stored.id)| <= HistoryLimit then 1 + |WithoutId(list, stored.id)| else HistoryLimit
  {
    var r := WithNewest(stored, list);
    var rest := WithoutId(list, stored.id);
    var full := [stored] + rest;
    assert r == full[..|r|];
    assert r[0] == stored;
    WithoutIdFacts(list, stored.id, stored);
    assert r[1..] == rest[..|r| - 1];
    PrefixOfSubsequence(rest, list, |r| - 1);
    forall i | 1 <= i < |r| ensures r[i].id != stored.id {
      assert r[i] == rest[i - 1];
    }
  }

  /** Saving keeps the ids of the history distinct. */
  lemma WithNewestKeepsDistinct(stored: StoredApp, list: seq<StoredApp>)
    requires DistinctIds(list)
    ensures DistinctIds(WithNewest(stored, list))
  {
    var r := WithNewest(stored, list);
    var rest := WithoutId(list, stored.id);
    WithoutIdKeepsDistinct(list, stored.id);
    WithNewestFacts(stored, list);
    forall i, j | 0 <= i < j < |r| ensures r[i].id != r[j].id {
      if i > 0 {
        assert r[i] == rest[i - 1] && r[j] == rest[j - 1];
      }
    }
  }

  /**
   * After a save, the history shows the saved entry under its id and every other entry
   * hidden by no newer one, until the cap of 50 pushes the oldest out.
   */
  lemma LookupAfterSave(stored: StoredApp, list: seq<StoredApp>, id: string)
    requires id != stored.id
    requires 1 + |WithoutId(list, stored.id)| <= HistoryLimit
    ensures FindById(WithNewest(stored, list), id) == FindById(list, id)
  {
    var keep := (a: StoredApp) => a.id != stored.id;
    assert WithoutId(list, stored.id) == Filter(list, keep);
    FindByIdFilter(list, keep, id);
    var r := WithNewest(stored, list);
    assert r == [stored] + Filter(list, keep);
    assert r[1..] == Filter(list, keep);
    assert IndexOfId(r, id) == match IndexOfId(r[1..], id) case None => None case Some(k) => Some(k + 1);
  }

  /** `find` on a list with a first entry looks at that entry before the rest. */
  lemma FindByIdCons(x: StoredApp, rest: seq<StoredApp>, id: string)
    ensures FindById([x] + rest, id) == if x.id == id then Some(x) else FindById(rest, id)
  {
    assert ([x] + rest)[1..] == rest;
  }

  /** Filtering out entries with other ids than `id` does not change what `find` returns for `id`. */
  lemma {:induction false} FindByIdFilter(list: seq<StoredApp>, keep: StoredApp -> bool, id: string)
    requires forall a: StoredApp :: a.id == id ==> keep(a)
    ensures FindById(Filter(list, keep), id) == FindById(list, id)
  {
    if list != [] {
      var tail := list[1..];
      FindByIdFilter(tail, keep, id);
      assert list == [list[0]] + tail;
      FindByIdCons(list[0], tail, id);
      if keep(list[0]) {
        assert Filter(list, keep) == [list[0]] + Filter(tail, keep);
        FindByIdCons(list[0], Filter(tail, keep), id);
      } else {
        assert Filter(list, keep) == Filter(tail, keep);
      }
    }
  }
}
