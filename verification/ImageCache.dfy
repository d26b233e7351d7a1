/**
 The MCP adapter's cache of observed images and zoom views: first in, first out, bounded by count
 and by bytes, and emptied window by window.
 */
module ImageCache {
  import opened Common

  type ObservationId = string
  type WindowRef = string

  const MAX_MAPPINGS: nat := 32
  const MAX_BYTES: nat := 32 * 1024 * 1024
  const MAX_VIEWS: nat := 32
  const U64_MAX: nat := 0xFFFF_FFFF_FFFF_FFFF
  const MAX_ALLOCATION: nat := 0x7FFF_FFFF_FFFF_FFFF

  datatype CachedImage = CachedImage(window: WindowRef, mapping: nat, size: nat)

  datatype RegionView = RegionView(observation: ObservationId, window: WindowRef, region: (nat, nat, nat, nat))

  function SaturatingAdd(a: nat, b: nat): nat {
    if a + b > U64_MAX then U64_MAX else a + b
  }

  predicate Distinct(q: seq<string>) {
    forall i, j :: 0 <= i < j < |q| ==> q[i] != q[j]
  }

  /** `q` lists each key once and nothing else. */
  ghost predicate Lists(q: seq<string>, keys: set<string>) {
    Distinct(q) && (forall x :: x in q <==> x in keys)
  }

  ghost function Bytes(q: seq<ObservationId>, entries: map<ObservationId, CachedImage>): nat
    requires forall x :: x in q ==> x in entries
  {
    if q == [] then 0 else entries[q[0]].size + Bytes(q[1..], entries)
  }

  function Keep(q: seq<string>, keys: set<string>): seq<string> {
    if q == [] then []
    else if q[0] in keys then [q[0]] + Keep(q[1..], keys) else Keep(q[1..], keys)
  }

  lemma {:induction false} KeepIn(q: seq<string>, keys: set<string>, x: string)
    ensures x in Keep(q, keys) <==> x in q && x in keys
  {
    if q != [] { KeepIn(q[1..], keys, x); }
  }

  lemma {:induction false} KeepDistinct(q: seq<string>, keys: set<string>)
    requires Distinct(q)
    ensures Distinct(Keep(q, keys))
  {
    if q != [] {
      KeepDistinct(q[1..], keys);
      KeepIn(q[1..], keys, q[0]);
      assert q[0] !in q[1..];
    }
  }

  /** `x` comes before `y`. */
  ghost predicate Precedes(q: seq<string>, x: string, y: string) {
    exists i, j :: 0 <= i < j < |q| && q[i] == x && q[j] == y
  }

  lemma {:induction false} KeepInOrder(q: seq<string>, keys: set<string>, x: string, y: string)
    ensures Precedes(Keep(q, keys), x, y) ==> Precedes(q, x, y)
  {
    if q != [] && Precedes(Keep(q, keys), x, y) {
      var kept, rest := Keep(q, keys), Keep(q[1..], keys);
      var i, j :| 0 <= i < j < |kept| && kept[i] == x && kept[j] == y;
      if q[0] in keys && i == 0 {
        assert rest[j - 1] == y;
        KeepIn(q[1..], keys, y);
        var n :| 0 <= n < |q[1..]| && q[1..][n] == y;
        assert q[0] == x && q[n + 1] == y;
      } else {
        var d := if q[0] in keys then 1 else 0;
        assert rest[i - d] == x && rest[j - d] == y;
        KeepInOrder(q[1..], keys, x, y);
        var a, b :| 0 <= a < b < |q[1..]| && q[1..][a] == x && q[1..][b] == y;
        assert q[a + 1] == x && q[b + 1] == y;
      }
    }
  }

  lemma KeepLists(q: seq<string>, keys: set<string>, all: set<string>)
    requires Lists(q, all) && keys <= all
    ensures Lists(Keep(q, keys), keys)
  {
    KeepDistinct(q, keys);
    forall x ensures x in Keep(q, keys) <==> x in keys { KeepIn(q, keys, x); }
  }

  lemma {:induction false} BytesFrame(
    q: seq<ObservationId>, e: map<ObservationId, CachedImage>, e': map<ObservationId, CachedImage>)
    requires forall x :: x in q ==> x in e && x in e' && e[x] == e'[x]
    ensures Bytes(q, e) == Bytes(q, e')
  {
    if q != [] { BytesFrame(q[1..], e, e'); }
  }

  lemma {:induction false} BytesAppend(q: seq<ObservationId>, x: ObservationId, e: map<ObservationId, CachedImage>)
    requires x in e && forall y :: y in q ==> y in e
    ensures Bytes(q + [x], e) == Bytes(q, e) + e[x].size
  {
    if q == [] {
      assert [x][1..] == [];
    } else {
      BytesAppend(q[1..], x, e);
      assert (q + [x])[1..] == q[1..] + [x];
    }
  }

  lemma {:induction false} KeepAll(q: seq<string>, keys: set<string>)
    requires forall x :: x in q ==> x in keys
    ensures Keep(q, keys) == q
  {
    if q != [] { KeepAll(q[1..], keys); }
  }

  lemma {:induction false} KeepBytes(
    q: seq<ObservationId>, keys: set<ObservationId>, x: ObservationId, e: map<ObservationId, CachedImage>)
    requires Distinct(q) && x in q && x !in keys && forall y :: y in q ==> y in e && (y == x || y in keys)
    ensures forall y :: y in Keep(q, keys) ==> y in e
    ensures Bytes(q, e) == Bytes(Keep(q, keys), e) + e[x].size
  {
    forall y | y in Keep(q, keys) ensures y in e { KeepIn(q, keys, y); }
    if q[0] == x {
      assert x !in q[1..];
      KeepAll(q[1..], keys);
    } else {
      KeepBytes(q[1..], keys, x, e);
      var kept := Keep(q[1..], keys);
      assert ([q[0]] + kept)[1..] == kept;
    }
  }

  /** The images `q` leave room for one more of the given size. */
  ghost predicate Fits(q: seq<ObservationId>, e: map<ObservationId, CachedImage>, size: nat)
    requires forall x :: x in q ==> x in e
  {
    |q| < MAX_MAPPINGS && Bytes(q, e) + size <= MAX_BYTES
  }

  ghost predicate Within(e: map<ObservationId, CachedImage>, e0: map<ObservationId, CachedImage>) {
    forall x :: x in e ==> x in e0 && e0[x] == e[x]
  }

  /** No suffix that drops fewer than `k` leaves room. */
  ghost predicate TooLong(q: seq<ObservationId>, e: map<ObservationId, CachedImage>, size: nat, k: nat) {
    (forall x :: x in q ==> x in e) && k <= |q| && forall j :: 0 <= j < k ==> !Fits(q[j..], e, size)
  }

  /** Dropping the first `k` is enough, or there is nothing left to drop, and dropping fewer is not. */
  ghost predicate LongestFitting(q: seq<ObservationId>, e: map<ObservationId, CachedImage>, size: nat, k: nat) {
    TooLong(q, e, size, k) && (k == |q| || Fits(q[k..], e, size))
  }

  /** The queue lists the images, the counter is their exact total, and each window has at most its latest image. */
  ghost predicate ImagesOk(
    entries: map<ObservationId, CachedImage>, order: seq<ObservationId>, cachedBytes: nat,
    latest: map<WindowRef, ObservationId>)
  {
    && Lists(order, entries.Keys) && cachedBytes == Bytes(order, entries) && |order| <= MAX_MAPPINGS
    && forall x :: x in entries ==>
         && entries[x].size <= MAX_ALLOCATION
         && entries[x].window in latest && latest[entries[x].window] == x
  }

  function ImagesWithout(entries: map<ObservationId, CachedImage>, window: WindowRef): map<ObservationId, CachedImage> {
    map x | x in entries && entries[x].window != window :: entries[x]
  }

  function ViewsWithout(views: map<string, RegionView>, window: WindowRef): map<string, RegionView> {
    map v | v in views && views[v].window != window :: views[v]
  }

  lemma WithoutExactly(e: map<ObservationId, CachedImage>, views: map<string, RegionView>, window: WindowRef)
    ensures var kept := ImagesWithout(e, window);
      (forall x :: x in kept <==> x in e && e[x].window != window) && forall x :: x in kept ==> kept[x] == e[x]
    ensures var kept := ViewsWithout(views, window);
      && (forall v :: v in kept <==> v in views && views[v].window != window)
      && forall v :: v in kept ==> kept[v] == views[v]
  {
  }

  ghost predicate Current(views: map<string, RegionView>, latest: map<WindowRef, ObservationId>) {
    forall v :: v in views ==> views[v].window in latest && latest[views[v].window] == views[v].observation
  }

  /** What the cache is told about windows. */
  datatype Word = Inserted(window: WindowRef, id: ObservationId) | Invalidated(window: WindowRef) | Cleared

  /** The observation each window has after all of this. */
  ghost function Latest(history: seq<Word>): map<WindowRef, ObservationId> {
    if history == [] then map[] else Told(Latest(history[..|history| - 1]), history[|history| - 1])
  }

  ghost function Told(latest: map<WindowRef, ObservationId>, word: Word): map<WindowRef, ObservationId> {
    if word.Inserted? then latest[word.window := word.id]
    else if word.Invalidated? then latest - {word.window}
    else map[]
  }

  predicate Touches(word: Word, window: WindowRef) {
    word == Cleared || word.window == window
  }

  /** What one window's observation becomes, starting from `start`. */
  ghost function Fate(window: WindowRef, start: Option<ObservationId>, words: seq<Word>): Option<ObservationId> {
    if words == [] then start
    else
      var word := words[|words| - 1];
      if !Touches(word, window) then Fate(window, start, words[..|words| - 1])
      else if word.Inserted? then Some(word.id)
      else None
  }

  function Find(latest: map<WindowRef, ObservationId>, window: WindowRef): Option<ObservationId> {
    if window in latest then Some(latest[window]) else None
  }

  lemma {:induction false} LatestIsFate(history: seq<Word>, window: WindowRef)
    ensures Find(Latest(history), window) == Fate(window, None, history)
  {
    if history != [] { LatestIsFate(history[..|history| - 1], window); }
  }

  lemma {:induction false} FateSplits(window: WindowRef, start: Option<ObservationId>, a: seq<Word>, b: seq<Word>)
    ensures Fate(window, start, a + b) == Fate(window, Fate(window, start, a), b)
  {
    if b == [] {
      assert a + b == a;
    } else {
      FateSplits(window, start, a, b[..|b| - 1]);
      assert (a + b)[..|a + b| - 1] == a + b[..|b| - 1];
    }
  }

  /** Nothing happened to the window, or the last thing was that this very observation was inserted again. */
  ghost predicate Undisturbed(window: WindowRef, id: ObservationId, words: seq<Word>) {
    forall k :: 0 <= k < |words| && Touches(words[k], window) ==>
      words[k] == Inserted(window, id) || exists j :: k < j < |words| && Touches(words[j], window)
  }

  /** A looked-up observation is still its window's latest exactly when the window was undisturbed since. */
  lemma {:induction false} StillLatestExactly(window: WindowRef, id: ObservationId, words: seq<Word>)
    ensures Fate(window, Some(id), words) == Some(id) <==> Undisturbed(window, id, words)
  {
    if words != [] {
      var n := |words| - 1;
      StillLatestExactly(window, id, words[..n]);
      if Touches(words[n], window) {
        assert Undisturbed(window, id, words) <==> words[n] == Inserted(window, id) by {
          forall k | 0 <= k < n && Touches(words[k], window)
            ensures exists j :: k < j < |words| && Touches(words[j], window) {}
        }
      } else {
        UndisturbedBefore(window, id, words);
      }
    }
  }

  lemma UndisturbedBefore(window: WindowRef, id: ObservationId, words: seq<Word>)
    requires words != [] && !Touches(words[|words| - 1], window)
    ensures Undisturbed(window, id, words) <==> Undisturbed(window, id, words[..|words| - 1])
  {
    var n := |words| - 1;
    var front := words[..n];
    if Undisturbed(window, id, words) {
      forall k | 0 <= k < n && Touches(front[k], window)
        ensures front[k] == Inserted(window, id) || exists j :: k < j < n && Touches(front[j], window)
      {
        assert Touches(words[k], window);
        if words[k] != Inserted(window, id) {
          var j :| k < j < |words| && Touches(words[j], window);
          assert Touches(front[j], window);
        }
      }
    }
    if Undisturbed(window, id, front) {
      forall k | 0 <= k < |words| && Touches(words[k], window)
        ensures words[k] == Inserted(window, id) || exists j :: k < j < |words| && Touches(words[j], window)
      {
        assert Touches(front[k], window);
        if front[k] != Inserted(window, id) {
          var j :| k < j < n && Touches(front[j], window);
          assert Touches(words[j], window);
        }
      }
    }
  }

  class ImageMappingCache {
    var entries: map<ObservationId, CachedImage>
    var order: seq<ObservationId>
    var cachedBytes: nat
    var views: map<string, RegionView>
    var viewOrder: seq<string>
    /** The observation last inserted for each window and not invalidated since. */
    ghost var latest: map<WindowRef, ObservationId>
    ghost var history: seq<Word>

    ghost predicate ImagesValid()
      reads this
    {
      ImagesOk(entries, order, cachedBytes, latest)
    }

    ghost predicate ViewsValid()
      reads this
    {
      Lists(viewOrder, views.Keys) && |viewOrder| <= MAX_VIEWS
    }

    ghost predicate Valid()
      reads this
    {
      ImagesValid() && ViewsValid() && latest == Latest(history)
    }

    /** The byte bound, which only a single image larger than the whole bound can break. */
    ghost predicate InBudget()
      reads this
    {
      cachedBytes <= MAX_BYTES || |order| == 1
    }

    ghost predicate ViewsCurrent()
      reads this
    {
      Current(views, latest)
    }

    constructor ()
      ensures Valid() && InBudget() && ViewsCurrent() && entries == map[] && views == map[] && history == []
    {
      history := [];
      entries, order, cachedBytes, views, viewOrder, latest := map[], [], 0, map[], [], map[];
    }

    method Clear()
      modifies this
      ensures Valid() && InBudget() && ViewsCurrent() && entries == map[] && views == map[]
      ensures history == old(history) + [Cleared]
    {
      history := history + [Cleared];
      entries, order, cachedBytes, views, viewOrder, latest := map[], [], 0, map[], [], map[];
    }

    method WindowBytes(window: WindowRef) returns (removed: nat)
      requires ImagesValid()
      ensures removed ==
        if window in latest && latest[window] in entries && entries[latest[window]].window == window
        then entries[latest[window]].size else 0
    {
      removed := 0;
      var left := entries.Keys;
      while left != {}
        invariant left <= entries.Keys
        invariant removed ==
          if window in latest && latest[window] in entries - left && entries[latest[window]].window == window
          then entries[latest[window]].size else 0
        decreases |left|
      {
        var x :| x in left;
        if entries[x].window == window { removed := SaturatingAdd(removed, entries[x].size); }
        left := left - {x};
      }
    }

    /** Drops exactly the window's image and views; everything else keeps its place. */
    method InvalidateWindow(window: WindowRef)
      requires Valid()
      modifies this
      ensures Valid()
      ensures old(InBudget()) ==> cachedBytes <= MAX_BYTES || order == old(order)
      ensures entries == ImagesWithout(old(entries), window) && views == ViewsWithout(old(views), window)
      ensures forall x :: x in entries <==> x in old(entries) && old(entries)[x].window != window
      ensures forall x :: x in entries ==> entries[x] == old(entries)[x]
      ensures forall v :: v in views <==> v in old(views) && old(views)[v].window != window
      ensures forall v :: v in views ==> views[v] == old(views)[v]
      ensures forall x, y :: Precedes(order, x, y) ==> Precedes(old(order), x, y)
      ensures forall x, y :: Precedes(viewOrder, x, y) ==> Precedes(old(viewOrder), x, y)
      ensures order == Keep(old(order), entries.Keys) && viewOrder == Keep(old(viewOrder), views.Keys)
      ensures latest == old(latest) - {window} && history == old(history) + [Invalidated(window)]
      ensures old(ViewsCurrent()) ==> ViewsCurrent()
    {
      LatestAfter(history, Invalidated(window));
      WithoutExactly(entries, views, window);
      hide ImagesOk, Keep, Lists, ImagesWithout, ViewsWithout, Current, Latest, Precedes;
      forall x, y ensures Precedes(Keep(order, ImagesWithout(entries, window).Keys), x, y) ==> Precedes(order, x, y) {
        KeepInOrder(order, ImagesWithout(entries, window).Keys, x, y);
      }
      ghost var kept := ViewsWithout(views, window).Keys;
      forall x, y ensures Precedes(Keep(viewOrder, kept), x, y) ==> Precedes(viewOrder, x, y) {
        KeepInOrder(viewOrder, kept, x, y);
      }
      var removed := WindowBytes(window);
      WindowDropped(entries, order, cachedBytes, latest, window, removed);
      ViewsDropped(views, viewOrder, latest, window);
      entries := ImagesWithout(entries, window);
      cachedBytes := SaturatingSub(cachedBytes, removed);
      order := Keep(order, entries.Keys);
      views := ViewsWithout(views, window);
      viewOrder := Keep(viewOrder, views.Keys);
      latest, history := latest - {window}, history + [Invalidated(window)];
    }

    /**
     Replaces the window's image and evicts from the front. What stays of the other images, in order,
     is the longest suffix that leaves room for the new one.
     */
    method Insert(id: ObservationId, window: WindowRef, mapping: nat, size: nat) returns (ghost k: nat)
      requires Valid() && size <= MAX_ALLOCATION && (id in entries ==> entries[id].window == window)
      modifies this
      ensures Valid() && InBudget() && (cachedBytes <= MAX_BYTES || size > MAX_BYTES)
      ensures id in entries && entries[id] == CachedImage(window, mapping, size) && latest == old(latest)[window := id]
      ensures views == ViewsWithout(old(views), window) && viewOrder == Keep(old(viewOrder), views.Keys)
      ensures forall v :: v in views <==> v in old(views) && old(views)[v].window != window
      ensures forall v :: v in views ==> views[v] == old(views)[v]
      ensures old(ViewsCurrent()) ==> ViewsCurrent()
      ensures history == old(history) + [Invalidated(window), Inserted(window, id)]
      ensures var e := ImagesWithout(old(entries), window);
        && LongestFitting(Keep(old(order), e.Keys), e, size, k) && order == Keep(old(order), e.Keys)[k..] + [id]
        && Within(entries - {id}, e)
    {
      hide Current, ImagesOk, Fits, Keep, Lists, TooLong, Within, ImagesWithout, ViewsWithout, SaturatingAdd;
      hide LongestFitting, Latest;
      InvalidateWindow(window);
      k := Evict(size, entries);
      NothingOfWindow(old(entries), entries, window, id);
      ImageAppended(entries, order, cachedBytes, latest, id, CachedImage(window, mapping, size));
      NewLatest(views, latest, window, id);
      RoomLeft(|order|, cachedBytes, size);
      order := order + [id];
      cachedBytes := SaturatingAdd(cachedBytes, size);
      assert entries == entries[id := CachedImage(window, mapping, size)] - {id};
      entries := entries[id := CachedImage(window, mapping, size)];
      LatestAfter(history, Inserted(window, id));
      latest, history := latest[window := id], history + [Inserted(window, id)];
    }

    /** The eviction loop of an insert. */
    method Evict(size: nat, ghost e: map<ObservationId, CachedImage>) returns (ghost k: nat)
      requires ImagesValid() && entries == e && size <= MAX_ALLOCATION
      modifies this`entries, this`order, this`cachedBytes
      ensures ImagesValid() && LongestFitting(old(order), e, size, k) && order == old(order)[k..] && Within(entries, e)
      ensures |order| < MAX_MAPPINGS && ((order == [] && cachedBytes == 0) || cachedBytes + size <= MAX_BYTES)
    {
      hide ImagesOk, Evicting, Within, LongestFitting;
      k := 0;
      EvictingStarts(entries, order, cachedBytes, latest, size);
      while Full(entries, cachedBytes, size)
        invariant Evicting(entries, order, cachedBytes, latest, e, old(order), size, k)
        decreases |order|
      {
        if order == [] { break; }
        EvictingGoesOn(entries, order, cachedBytes, latest, e, old(order), size, k);
        var stale := order[0];
        order := order[1..];
        if stale in entries {
          cachedBytes := SaturatingSub(cachedBytes, entries[stale].size);
          entries := entries - {stale};
        }
        k := k + 1;
      }
      EvictingEnds(entries, order, cachedBytes, latest, e, old(order), size, k);
      assert ImagesOk(entries, order, cachedBytes, latest) && Within(entries, e) && order == old(order)[k..] by {
        EvictingIs(entries, order, cachedBytes, latest, e, old(order), size, k);
      }
    }

    method Get(id: ObservationId, window: WindowRef) returns (r: Option<CachedImage>)
      requires Valid()
      ensures r.Some? <==> id in entries && entries[id].window == window
      ensures r.Some? ==> r.value == entries[id] && window in latest && latest[window] == id
    {
      r := if id in entries && entries[id].window == window then Some(entries[id]) else None;
    }

    /** The first half of a zoom: the image, and where in the history it was looked up. */
    method BeginZoom(id: ObservationId, window: WindowRef) returns (r: Option<CachedImage>, ghost mark: nat)
      requires Valid()
      ensures mark == |history| && (r.Some? <==> id in entries && entries[id].window == window)
      ensures r.Some? ==> r.value == entries[id] && Fate(window, None, history[..mark]) == Some(id)
    {
      mark := |history|;
      assert history[..mark] == history;
      LatestIsFate(history, window);
      r := Get(id, window);
    }

    /**
     The second half, after the crop: the view is inserted whatever happened meanwhile. All views stay
     current exactly when the window was undisturbed since the lookup.
     */
    method FinishZoom(name: string, view: RegionView, ghost mark: nat)
      requires Valid() && name !in views
      requires mark <= |history| && Fate(view.window, None, history[..mark]) == Some(view.observation)
      modifies this`views, this`viewOrder
      ensures Valid() && name in views && views[name] == view
      ensures old(ViewsCurrent()) ==>
        (ViewsCurrent() <==> Undisturbed(view.window, view.observation, history[mark..]))
    {
      assert history[..mark] + history[mark..] == history;
      FateSplits(view.window, None, history[..mark], history[mark..]);
      StillLatestExactly(view.window, view.observation, history[mark..]);
      LatestIsFate(history, view.window);
      hide Undisturbed, Fate, Latest, Lists, ImagesOk;
      InsertView(name, view);
    }

    /** A new view pushes out the oldest ones. */
    method InsertView(name: string, view: RegionView)
      requires Valid() && name !in views
      modifies this`views, this`viewOrder
      ensures Valid() && name in views && views[name] == view
      ensures old(ViewsCurrent()) ==>
        (ViewsCurrent() <==> view.window in latest && latest[view.window] == view.observation)
      ensures forall v :: v in views && v != name ==> v in old(views) && views[v] == old(views)[v]
      ensures viewOrder == old(viewOrder)[(if |old(viewOrder)| < MAX_VIEWS then 0 else 1)..] + [name]
    {
      hide Lists, ImagesOk, Latest;
      ListsSize(viewOrder, views.Keys);
      while |views| >= MAX_VIEWS
        invariant Lists(viewOrder, views.Keys) && |viewOrder| <= MAX_VIEWS && |views| == |viewOrder|
        invariant forall v :: v in views ==> v in old(views) && views[v] == old(views)[v]
        invariant viewOrder == old(viewOrder) || (|old(viewOrder)| == MAX_VIEWS && viewOrder == old(viewOrder)[1..])
        decreases |viewOrder|
      {
        if viewOrder == [] { break; }
        var stale := viewOrder[0];
        ViewEvicted(views, viewOrder);
        viewOrder := viewOrder[1..];
        views := views - {stale};
      }
      ViewAppended(views, viewOrder, name, view);
      viewOrder := viewOrder + [name];
      views := views[name := view];
    }

    method GetView(name: string) returns (r: Option<RegionView>)
      requires Valid()
      ensures r.Some? <==> name in views
      ensures r.Some? ==> r.value == views[name]
      ensures r.Some? && ViewsCurrent() ==> r.value.window in latest && latest[r.value.window] == r.value.observation
    {
      r := if name in views then Some(views[name]) else None;
    }
  }

  lemma {:induction false} ListsSize(q: seq<string>, keys: set<string>)
    requires Lists(q, keys)
    ensures |q| == |keys|
  {
    if q == [] {
      assert keys == {};
    } else {
      assert forall x :: x in q <==> x == q[0] || x in q[1..];
      assert q[0] !in q[1..];
      ListsSize(q[1..], keys - {q[0]});
    }
  }

  lemma FrontEvicted(
    e: map<ObservationId, CachedImage>, q: seq<ObservationId>, total: nat, latest: map<WindowRef, ObservationId>)
    requires ImagesOk(e, q, total, latest) && q != []
    ensures q[0] in e && total >= e[q[0]].size && Within(e - {q[0]}, e)
    ensures ImagesOk(e - {q[0]}, q[1..], total - e[q[0]].size, latest)
  {
    assert forall x :: x in q <==> x == q[0] || x in q[1..];
    assert q[0] !in q[1..];
    BytesFrame(q[1..], e, e - {q[0]});
  }

  lemma ImageAppended(
    e: map<ObservationId, CachedImage>, q: seq<ObservationId>, total: nat, latest: map<WindowRef, ObservationId>,
    id: ObservationId, image: CachedImage)
    requires ImagesOk(e, q, total, latest) && id !in e && |q| < MAX_MAPPINGS && image.size <= MAX_ALLOCATION
    requires forall x :: x in e ==> e[x].window != image.window
    ensures ImagesOk(e[id := image], q + [id], total + image.size, latest[image.window := id])
  {
    BytesAppend(q, id, e[id := image]);
    BytesFrame(q, e, e[id := image]);
  }

  lemma FullMeansUnfit(
    e: map<ObservationId, CachedImage>, q: seq<ObservationId>, total: nat, latest: map<WindowRef, ObservationId>,
    e0: map<ObservationId, CachedImage>, size: nat)
    requires ImagesOk(e, q, total, latest) && Within(e, e0)
    ensures |q| == |e| && (q == [] ==> total == 0) && forall x :: x in q ==> x in e0
    ensures Fits(q, e0, size) <==> !Full(e, total, size)
  {
    ListsSize(q, e.Keys);
    BytesFrame(q, e, e0);
  }

  predicate Full(e: map<ObservationId, CachedImage>, total: nat, size: nat) {
    |e| >= MAX_MAPPINGS || SaturatingAdd(total, size) > MAX_BYTES
  }

  /** The eviction loop has dropped the first `k` of `q0`, and had to. */
  ghost predicate Evicting(
    e: map<ObservationId, CachedImage>, q: seq<ObservationId>, total: nat, latest: map<WindowRef, ObservationId>,
    e0: map<ObservationId, CachedImage>, q0: seq<ObservationId>, size: nat, k: nat)
  {
    ImagesOk(e, q, total, latest) && Within(e, e0) && TooLong(q0, e0, size, k) && q == q0[k..]
  }

  lemma EvictingStarts(
    e: map<ObservationId, CachedImage>, q: seq<ObservationId>, total: nat, latest: map<WindowRef, ObservationId>,
    size: nat)
    requires ImagesOk(e, q, total, latest)
    ensures Evicting(e, q, total, latest, e, q, size, 0)
  {
    assert q[0..] == q;
  }

  lemma EvictingGoesOn(
    e: map<ObservationId, CachedImage>, q: seq<ObservationId>, total: nat, latest: map<WindowRef, ObservationId>,
    e0: map<ObservationId, CachedImage>, q0: seq<ObservationId>, size: nat, k: nat)
    requires Evicting(e, q, total, latest, e0, q0, size, k) && Full(e, total, size) && q != []
    ensures q[0] in e && total >= e[q[0]].size
    ensures Evicting(e - {q[0]}, q[1..], total - e[q[0]].size, latest, e0, q0, size, k + 1)
  {
    FullMeansUnfit(e, q, total, latest, e0, size);
    FrontEvicted(e, q, total, latest);
    assert q0[k..][1..] == q0[k + 1..];
    hide ImagesOk, Fits;
    assert TooLong(q0, e0, size, k + 1);
  }

  lemma EvictingIs(
    e: map<ObservationId, CachedImage>, q: seq<ObservationId>, total: nat, latest: map<WindowRef, ObservationId>,
    e0: map<ObservationId, CachedImage>, q0: seq<ObservationId>, size: nat, k: nat)
    requires Evicting(e, q, total, latest, e0, q0, size, k)
    ensures ImagesOk(e, q, total, latest) && Within(e, e0) && k <= |q0| && q == q0[k..]
  {
  }

  lemma EvictingEnds(
    e: map<ObservationId, CachedImage>, q: seq<ObservationId>, total: nat, latest: map<WindowRef, ObservationId>,
    e0: map<ObservationId, CachedImage>, q0: seq<ObservationId>, size: nat, k: nat)
    requires Evicting(e, q, total, latest, e0, q0, size, k) && (!Full(e, total, size) || q == [])
    ensures LongestFitting(q0, e0, size, k) && |q| < MAX_MAPPINGS
    ensures (q == [] && total == 0) || total + size <= MAX_BYTES
  {
    FullMeansUnfit(e, q, total, latest, e0, size);
  }

  lemma NothingOfWindow(
    e: map<ObservationId, CachedImage>, e': map<ObservationId, CachedImage>, window: WindowRef, id: ObservationId)
    requires (id in e ==> e[id].window == window) && Within(e', ImagesWithout(e, window))
    ensures id !in e' && forall x :: x in e' ==> e'[x].window != window
  {
  }

  lemma RoomLeft(kept: nat, total: nat, size: nat)
    requires size <= MAX_ALLOCATION && ((kept == 0 && total == 0) || total + size <= MAX_BYTES)
    ensures SaturatingAdd(total, size) == total + size
    ensures total + size <= MAX_BYTES || (kept == 0 && size > MAX_BYTES)
  {
  }

  lemma NewLatest(
    views: map<string, RegionView>, latest: map<WindowRef, ObservationId>, window: WindowRef, id: ObservationId)
    requires window !in latest
    ensures Current(views, latest) ==> Current(views, latest[window := id])
  {
  }

  lemma ViewEvicted(views: map<string, RegionView>, q: seq<string>)
    requires Lists(q, views.Keys) && q != []
    ensures Lists(q[1..], (views - {q[0]}).Keys) && |views - {q[0]}| == |q| - 1
  {
    assert forall x :: x in q <==> x == q[0] || x in q[1..];
    assert q[0] !in q[1..];
    ListsSize(q[1..], (views - {q[0]}).Keys);
  }

  lemma ViewAppended(views: map<string, RegionView>, q: seq<string>, name: string, view: RegionView)
    requires Lists(q, views.Keys) && name !in views
    ensures Lists(q + [name], views[name := view].Keys)
  {
  }

  lemma ViewsDropped(
    views: map<string, RegionView>, q: seq<string>, latest: map<WindowRef, ObservationId>, window: WindowRef)
    requires Lists(q, views.Keys)
    ensures var kept := ViewsWithout(views, window);
      && Lists(Keep(q, kept.Keys), kept.Keys) && |Keep(q, kept.Keys)| <= |q|
      && (Current(views, latest) ==> Current(kept, latest - {window}))
  {
    KeepLists(q, ViewsWithout(views, window).Keys, views.Keys);
    KeepShorter(q, ViewsWithout(views, window).Keys);
  }

  lemma WindowDropped(
    e: map<ObservationId, CachedImage>, q: seq<ObservationId>, total: nat, latest: map<WindowRef, ObservationId>,
    window: WindowRef, removed: nat)
    requires ImagesOk(e, q, total, latest)
    requires removed ==
      if window in latest && latest[window] in e && e[latest[window]].window == window
      then e[latest[window]].size else 0
    ensures var e' := ImagesWithout(e, window);
      && ImagesOk(e', Keep(q, e'.Keys), SaturatingSub(total, removed), latest - {window})
      && (total <= MAX_BYTES || |q| == 1 ==> SaturatingSub(total, removed) <= MAX_BYTES || Keep(q, e'.Keys) == q)
  {
    var e' := ImagesWithout(e, window);
    DroppedBytes(e, q, e', window, latest);
    KeepLists(q, e'.Keys, e.Keys);
    KeepShorter(q, e'.Keys);
    if |q| == 1 && Keep(q, e'.Keys) != q { assert Keep(q, e'.Keys) == []; }
    hide Keep, Bytes, Lists, ImagesOk;
    assert ImagesOk(e', Keep(q, e'.Keys), SaturatingSub(total, removed), latest - {window}) by {
      StillOk(e, e', Keep(q, e'.Keys), SaturatingSub(total, removed), latest, window, q, total);
    }
  }

  lemma StillOk(
    e: map<ObservationId, CachedImage>, e': map<ObservationId, CachedImage>, q': seq<ObservationId>, total': nat,
    latest: map<WindowRef, ObservationId>, window: WindowRef, q: seq<ObservationId>, total: nat)
    requires ImagesOk(e, q, total, latest) && e' == ImagesWithout(e, window) && Lists(q', e'.Keys) && |q'| <= |q|
    requires total' == Bytes(q', e')
    ensures ImagesOk(e', q', total', latest - {window})
  {
    hide Lists, Bytes;
  }

  lemma LatestAfter(history: seq<Word>, word: Word)
    ensures Latest(history + [word]) == Told(Latest(history), word)
  {
    assert (history + [word])[..|history|] == history;
  }

  /** A second observation of the window between the two halves of a zoom leaves a view that is not current. */
  method OvertakenZoom(window: WindowRef, first: ObservationId, second: ObservationId, view: RegionView)
    returns (c: ImageMappingCache)
    requires first != second && view.window == window && view.observation == first
    ensures fresh(c) && c.Valid() && !c.ViewsCurrent()
  {
    c := new ImageMappingCache();
    var k0 := c.Insert(first, window, 0, 0);
    var image, mark := c.BeginZoom(first, window);
    assert image.Some?;
    var k1 := c.Insert(second, window, 0, 0);
    assert c.history[mark..] == [Invalidated(window), Inserted(window, second)];
    c.FinishZoom("view", view, mark);
  }

  /** Inserting the same observation again in between does no harm. */
  method ReobservedZoom(window: WindowRef, first: ObservationId, view: RegionView) returns (c: ImageMappingCache)
    requires view.window == window && view.observation == first
    ensures fresh(c) && c.Valid() && c.ViewsCurrent()
  {
    c := new ImageMappingCache();
    var k0 := c.Insert(first, window, 0, 0);
    var image, mark := c.BeginZoom(first, window);
    assert image.Some?;
    c.InvalidateWindow(window);
    var k1 := c.Insert(first, window, 0, 0);
    ghost var words := c.history[mark..];
    assert words == [Invalidated(window), Invalidated(window), Inserted(window, first)];
    assert Touches(words[2], window);
    c.FinishZoom("view", view, mark);
  }

  lemma {:induction false} KeepShorter(q: seq<string>, keys: set<string>)
    ensures |Keep(q, keys)| <= |q|
    ensures |Keep(q, keys)| == |q| ==> Keep(q, keys) == q
  {
    if q != [] { KeepShorter(q[1..], keys); }
  }

  /** Removing a window's only image takes exactly its size off the total. */
  lemma DroppedBytes(
    e: map<ObservationId, CachedImage>, q: seq<ObservationId>, e': map<ObservationId, CachedImage>, window: WindowRef,
    latest: map<WindowRef, ObservationId>)
    requires Lists(q, e.Keys) && e' == ImagesWithout(e, window)
    requires forall x :: x in e ==> e[x].window in latest && latest[e[x].window] == x
    ensures forall x :: x in Keep(q, e'.Keys) ==> x in e'
    ensures Bytes(q, e) == Bytes(Keep(q, e'.Keys), e') +
      if window in latest && latest[window] in e && e[latest[window]].window == window
      then e[latest[window]].size else 0
  {
    KeepLists(q, e'.Keys, e.Keys);
    if window in latest && latest[window] in e && e[latest[window]].window == window {
      KeepBytes(q, e'.Keys, latest[window], e);
    } else {
      KeepAll(q, e'.Keys);
    }
    BytesFrame(Keep(q, e'.Keys), e, e');
  }
}
