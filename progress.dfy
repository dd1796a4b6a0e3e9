/** The progress store the scheduler reads: review records, the snapshot of
    all lists, the update maps it returns and how update maps are merged. */
module Progress {
  import opened Options

  /** How many records may share one review day. */
  const DAILY_LIMIT: int := 5

  /** One problem's review record. Days are day numbers. The numeric fields
      hold 0 where the stored object has no value: every read of them
      (`interval || 1`, `performance || 3`, `reviews || 0`, `vruntime || 0`)
      treats 0 and a missing field alike. `difficulty` stands for the fields
      the scheduler never writes and copies along unchanged. */
  datatype Record = Record(
    solved: bool,
    lastReviewed: Option<int>,
    nextReview: Option<int>,
    interval: int,
    performance: int,
    vruntime: real,
    reviews: int,
    difficulty: Option<string>)

  /** The record a problem that was never rated is treated as. */
  const Fresh: Record := Record(false, None, None, 0, 0, 0.0, 0, None)

  /** One record of the snapshot, with the list and problem id it is stored under. */
  datatype Entry = Entry(list: string, id: string, rec: Record)

  /** The whole store `{list -> {id -> record}}` in iteration order: the
      records of the first list, then those of the second, and so on. */
  type Store = seq<Entry>

  /** Keys are unique: no list holds the same problem id twice. */
  ghost predicate Keyed(s: Store) {
    forall i, j :: 0 <= i < j < |s| ==> s[i].list != s[j].list || s[i].id != s[j].id
  }

  /** Two snapshot records stored under the same list and id are the same. */
  lemma KeyedSame(s: Store, a: Entry, b: Entry)
    requires Keyed(s) && a in s && b in s
    requires a.list == b.list && a.id == b.id
    ensures a == b
  {
    var i :| 0 <= i < |s| && s[i] == a;
    var j :| 0 <= j < |s| && s[j] == b;
    if i != j {
      assert false;
    }
  }

  /** An update map `{list -> {id -> record}}`. */
  type Updates = map<string, map<string, Record>>

  /** The record an update map holds for a list and a problem id, if any. */
  function Find(u: Updates, list: string, id: string): Option<Record> {
    if list in u && id in u[list] then Some(u[list][id]) else None
  }

  /** The records listed for one list, or none. */
  function ListOf(u: Updates, list: string): map<string, Record> {
    if list in u then u[list] else map[]
  }

  /** Merging `v` into `u` list by list, as `Object.assign` does: on a clash
      of list and id, the record from `v` wins. */
  function Merge(u: Updates, v: Updates): (w: Updates)
    ensures w.Keys == u.Keys + v.Keys
    ensures forall l, id {:trigger Find(w, l, id)} ::
      Find(w, l, id) == if Find(v, l, id).Some? then Find(v, l, id) else Find(u, l, id)
  {
    map l | l in u.Keys + v.Keys :: ListOf(u, l) + ListOf(v, l)
  }

  /** `u` with the lists of `v` named in `done` merged in. */
  ghost function MergedSoFar(u: Updates, v: Updates, done: set<string>): Updates
    requires done <= v.Keys
  {
    map l | l in u.Keys + done :: ListOf(u, l) + (if l in done then v[l] else map[])
  }

  /** Merging one more list of `v` extends the partial merge by that list. */
  lemma MergeStep(u: Updates, v: Updates, done: set<string>, l: string)
    requires done <= v.Keys && l in v.Keys && l !in done
    ensures var w := MergedSoFar(u, v, done);
      w[l := (if l in w then w[l] else map[]) + v[l]] == MergedSoFar(u, v, done + {l})
  {
    var w := MergedSoFar(u, v, done);
    var w' := w[l := (if l in w then w[l] else map[]) + v[l]];
    var m := MergedSoFar(u, v, done + {l});
    assert w'.Keys == m.Keys;
    forall k | k in m
      ensures w'[k] == m[k]
    {
      if k == l {
        assert (if l in w then w[l] else map[]) == ListOf(u, l);
      }
    }
  }

  /** Merges `v` into a copy of `u` one list at a time, creating the list's
      map when `u` has none. */
  method MergeInto(u: Updates, v: Updates) returns (w: Updates)
    ensures w == Merge(u, v)
  {
    w := u;
    var done: set<string> := {};
    assert forall l :: l in u ==> u[l] + map[] == u[l];
    assert w == MergedSoFar(u, v, done);
    while done != v.Keys
      invariant done <= v.Keys
      invariant w == MergedSoFar(u, v, done)
      decreases v.Keys - done
    {
      assert (v.Keys - done) + done == v.Keys;
      var l :| l in v.Keys - done;
      MergeStep(u, v, done, l);
      var existing := if l in w then w[l] else map[];
      w := w[l := existing + v[l]];
      done := done + {l};
    }
    assert forall l :: l in w ==> w[l] == Merge(u, v)[l];
  }

  /** The records whose next review falls on day `d`, in store order. */
  function ItemsOn(s: Store, d: int): (r: seq<Entry>)
    ensures |r| <= |s|
    ensures forall k :: 0 <= k < |r| ==> r[k] in s && r[k].rec.nextReview == Some(d)
  {
    if |s| == 0 then []
    else
      var last := s[|s| - 1];
      ItemsOn(s[..|s| - 1], d) + (if last.rec.nextReview == Some(d) then [last] else [])
  }

  /** How many records are due on day `d`. */
  function CountOn(s: Store, d: int): nat {
    if |s| == 0 then 0
    else CountOn(s[..|s| - 1], d) + (if s[|s| - 1].rec.nextReview == Some(d) then 1 else 0)
  }

  /** The latest next-review day in the store (0 when no record has one). */
  function MaxDay(s: Store): (m: int)
    ensures forall e :: e in s && e.rec.nextReview.Some? ==> e.rec.nextReview.value <= m
  {
    if |s| == 0 then 0
    else
      var m := MaxDay(s[..|s| - 1]);
      var last := s[|s| - 1];
      assert forall e :: e in s ==> e in s[..|s| - 1] || e == last;
      if last.rec.nextReview.Some? && last.rec.nextReview.value > m then last.rec.nextReview.value else m
  }

  /** The two ways the scheduler counts a day's records agree: the list it
      collects has exactly as many entries as the day-count table holds. */
  lemma {:induction false} ItemsOnCount(s: Store, d: int)
    ensures |ItemsOn(s, d)| == CountOn(s, d)
  {
    if |s| > 0 {
      ItemsOnCount(s[..|s| - 1], d);
    }
  }

  /** The day's items are exactly the records of the store due that day. */
  lemma {:induction false} ItemsOnExactly(s: Store, d: int)
    ensures forall e :: e in ItemsOn(s, d) <==> e in s && e.rec.nextReview == Some(d)
  {
    if |s| > 0 {
      var last := s[|s| - 1];
      assert forall e :: e in s <==> e in s[..|s| - 1] || e == last;
      ItemsOnExactly(s[..|s| - 1], d);
    }
  }

  /** The day's items keep store order: the items of a store made of two
      parts are the first part's items followed by the second's. */
  lemma {:induction false} ItemsOnOrder(s1: Store, s2: Store, d: int)
    ensures ItemsOn(s1 + s2, d) == ItemsOn(s1, d) + ItemsOn(s2, d)
    decreases |s2|
  {
    if |s2| > 0 {
      assert (s1 + s2)[..|s1 + s2| - 1] == s1 + s2[..|s2| - 1];
      ItemsOnOrder(s1, s2[..|s2| - 1], d);
    } else {
      assert s1 + s2 == s1;
    }
  }

  /** When every record is due on day `d`, the day's items are the whole store. */
  lemma {:induction false} ItemsOnAllDue(s: Store, d: int)
    requires forall k :: 0 <= k < |s| ==> s[k].rec.nextReview == Some(d)
    ensures ItemsOn(s, d) == s
  {
    if |s| > 0 {
      ItemsOnAllDue(s[..|s| - 1], d);
    }
  }

  /** A day holding records is no later than the store's latest day. */
  lemma {:induction false} OccupiedDayBounded(s: Store, d: int)
    requires CountOn(s, d) > 0
    ensures d <= MaxDay(s)
  {
    ItemsOnCount(s, d);
    var x := ItemsOn(s, d)[0];
    assert x in s && x.rec.nextReview == Some(d);
  }

  /** The snapshot with the record stored under `list`/`id` taken out. */
  function Without(s: Store, list: string, id: string): (r: Store)
    ensures |r| <= |s|
    ensures forall e :: e in r <==> e in s && (e.list != list || e.id != id)
  {
    if |s| == 0 then []
    else
      var last := s[|s| - 1];
      assert forall e :: e in s <==> e in s[..|s| - 1] || e == last;
      Without(s[..|s| - 1], list, id) + (if last.list == list && last.id == id then [] else [last])
  }
}
