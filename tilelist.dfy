/** The tile search: a breadth-first walk from a seed tile that collects
    every tile meeting a query box, with a FIFO check list and a set of
    tiles already considered. */
module TileSearch {
  import opened Aabb
  import opened TileGrid
  import opened TileCover

  /** No tile id occurs twice. */
  predicate NoDup(s: seq<int>)
  {
    forall i, j :: 0 <= i < j < |s| ==> s[i] != s[j]
  }

  /** The set of entries of s. */
  function Elems(s: seq<int>): (e: set<int>)
    ensures forall x :: x in e <==> x in s
  {
    set x | x in s
  }

  /** The entries of s that are in inside, in the order of s. */
  function Filter(inside: set<int>, s: seq<int>): (h: seq<int>)
    ensures |h| <= |s|
    decreases |s|
  {
    if s == [] then []
    else
      var p := Filter(inside, s[..|s| - 1]);
      var x := s[|s| - 1];
      if x in inside then p + [x] else p
  }

  /** The filtered sequence holds exactly the entries of s in inside. */
  lemma {:induction false} FilterMembers(inside: set<int>, s: seq<int>)
    ensures forall x :: x in Filter(inside, s) <==> x in s && x in inside
    decreases |s|
  {
    if s != [] {
      var s' := s[..|s| - 1];
      FilterMembers(inside, s');
      assert s == s' + [s[|s| - 1]];
    }
  }

  /** Filtering keeps entries distinct. */
  lemma {:induction false} FilterNoDup(inside: set<int>, s: seq<int>)
    requires NoDup(s)
    ensures NoDup(Filter(inside, s))
    decreases |s|
  {
    if s != [] {
      var s' := s[..|s| - 1];
      assert NoDup(s');
      FilterNoDup(inside, s');
      FilterMembers(inside, s');
      var x := s[|s| - 1];
      assert x !in s';
    }
  }

  /** Filtering distributes over concatenation. */
  lemma {:induction false} FilterAppend(inside: set<int>, a: seq<int>, b: seq<int>)
    ensures Filter(inside, a + b) == Filter(inside, a) + Filter(inside, b)
    decreases |b|
  {
    if b == [] {
      assert a + b == a;
    } else {
      var b' := b[..|b| - 1];
      assert (a + b)[..|a + b| - 1] == a + b';
      assert (a + b)[|a + b| - 1] == b[|b| - 1];
      FilterAppend(inside, a, b');
    }
  }

  /** Filtering a sequence whose every entry is in inside keeps it whole. */
  lemma {:induction false} FilterAll(inside: set<int>, s: seq<int>)
    requires forall i :: 0 <= i < |s| ==> s[i] in inside
    ensures Filter(inside, s) == s
    decreases |s|
  {
    if s != [] {
      FilterAll(inside, s[..|s| - 1]);
    }
  }

  /** Filtering a sequence with no entry in inside leaves nothing. */
  lemma {:induction false} FilterNone(inside: set<int>, s: seq<int>)
    requires forall i :: 0 <= i < |s| ==> s[i] !in inside
    ensures Filter(inside, s) == []
    decreases |s|
  {
    if s != [] {
      FilterNone(inside, s[..|s| - 1]);
    }
  }

  /** When the first entry is in inside, it heads the filtered sequence. */
  lemma FilterHead(inside: set<int>, s: seq<int>)
    requires |s| > 0 && s[0] in inside
    ensures |Filter(inside, s)| > 0 && Filter(inside, s)[0] == s[0]
  {
    assert s == [s[0]] + s[1..];
    FilterAppend(inside, [s[0]], s[1..]);
    assert [s[0]][..0] == [];
  }

  /** The neighbours in ns that are to be queued: not -1, not in seen and
      not earlier in ns, in the order of ns. */
  function Discovered(seen: set<int>, ns: seq<int>): (d: seq<int>)
    ensures forall x :: x in d <==> x in ns && x != -1 && x !in seen
    ensures NoDup(d)
    decreases |ns|
  {
    if ns == [] then []
    else
      var p := Discovered(seen, ns[..|ns| - 1]);
      var x := ns[|ns| - 1];
      if x == -1 || x in seen || x in p then p else p + [x]
  }

  /** The check list history of a search from start once the tiles of
      list have been collected in that order: each collected tile pushes
      its neighbours that were not queued before at the back. */
  function Grown(g: Grid, start: seq<int>, list: seq<int>): (h: seq<int>)
    requires Valid(g) && AllValid(g, list)
    ensures start <= h
    ensures NoDup(start) ==> NoDup(h)
    ensures AllValid(g, start) ==> AllValid(g, h)
    decreases |list|
  {
    if list == [] then start
    else
      var p := Grown(g, start, list[..|list| - 1]);
      var d := Discovered(Elems(p), Neighbours(g, list[|list| - 1]));
      assert forall i, j :: 0 <= i < |p| <= j < |p + d| ==> (p + d)[i] in p && (p + d)[j] in d;
      p + d
  }

  /** Collecting one tile t queues its new neighbours after start. */
  lemma GrownOne(g: Grid, start: seq<int>, t: int)
    requires Valid(g) && ValidId(g, t)
    ensures AllValid(g, [t])
    ensures Grown(g, start, [t]) == start + Discovered(Elems(start), Neighbours(g, t))
  {
    assert [t][..0] == [];
  }

  /** A tile of the history that was not there at the start was queued as
      a neighbour of one of the collected tiles. */
  lemma {:induction false} GrownFrom(g: Grid, start: seq<int>, list: seq<int>, x: int)
    requires Valid(g) && AllValid(g, list)
    requires x in Grown(g, start, list) && x !in start
    ensures exists j :: 0 <= j < |list| && x in Neighbours(g, list[j])
    decreases |list|
  {
    var l' := list[..|list| - 1];
    var p := Grown(g, start, l');
    if x in p {
      GrownFrom(g, start, l', x);
      var j :| 0 <= j < |l'| && x in Neighbours(g, l'[j]);
      assert l'[j] == list[j];
    } else {
      assert x in Neighbours(g, list[|list| - 1]);
    }
  }

  /** Neighbours that all exist, are distinct and are new are all queued,
      in their order. */
  lemma {:induction false} DiscoveredAll(seen: set<int>, ns: seq<int>)
    requires NoDup(ns) && forall i :: 0 <= i < |ns| ==> ns[i] != -1 && ns[i] !in seen
    ensures Discovered(seen, ns) == ns
    decreases |ns|
  {
    if ns != [] {
      var p := ns[..|ns| - 1];
      DiscoveredAll(seen, p);
      assert ns[|ns| - 1] !in p;
    }
  }

  /** Discovered grows one neighbour at a time. */
  lemma DiscoveredStep(seen: set<int>, ns: seq<int>, i: nat)
    requires i < |ns|
    ensures var p := Discovered(seen, ns[..i]);
      Discovered(seen, ns[..i + 1]) ==
        if ns[i] == -1 || ns[i] in seen || ns[i] in p then p else p + [ns[i]]
  {
    assert ns[..i + 1][..i] == ns[..i];
  }

  /** With the neighbours before position i queued on top of seen, the
      one at i is queued next exactly when it is not -1 and not yet seen. */
  lemma DiscoveredNext(seen: set<int>, ns: seq<int>, i: nat, now: set<int>)
    requires i < |ns| && now == seen + Elems(Discovered(seen, ns[..i]))
    ensures var d := Discovered(seen, ns[..i]);
      Discovered(seen, ns[..i + 1]) == if ns[i] != -1 && ns[i] !in now then d + [ns[i]] else d
    ensures ns[i] != -1 && ns[i] !in now ==>
      now + {ns[i]} == seen + Elems(Discovered(seen, ns[..i]) + [ns[i]])
  {
    DiscoveredStep(seen, ns, i);
  }

  /** Appending one entry after a concatenation extends its second part. */
  lemma AppendOne(a: seq<int>, d: seq<int>, x: int)
    ensures (a + d) + [x] == a + (d + [x])
  {
  }

  /** Position of the first entry of q that is in inside, or |q|. */
  function FirstHit(inside: set<int>, q: seq<int>): (k: nat)
    ensures k <= |q|
    ensures forall j :: 0 <= j < k ==> q[j] !in inside
    ensures k < |q| ==> q[k] in inside
  {
    if q == [] || q[0] in inside then 0 else 1 + FirstHit(inside, q[1..])
  }

  /** The points probed for a seed tile: the box centre, then the lower
      left, lower right, upper left and upper right corners. */
  function Probes(box: Box): (ps: seq<Point>)
    ensures |ps| == 5 && ps[0] == Aabb.Center(box)
    ensures WellFormed(box) ==> forall p :: p in ps ==> Contains(box, p)
  {
    [Aabb.Center(box), Point(box.minx, box.miny), Point(box.maxx, box.miny),
     Point(box.minx, box.maxy), Point(box.maxx, box.maxy)]
  }

  /** Tile of the first point of ps inside the grid, or -1 if none is. */
  function FirstInside(g: Grid, ps: seq<Point>): (id: int)
    requires Valid(g)
    ensures id == -1 <==> forall p :: p in ps ==> !Contains(g.bounds, p)
    ensures id != -1 ==> ValidId(g, id)
  {
    if ps == [] then -1
    else if Contains(g.bounds, ps[0]) then TileIdOfPoint(g, ps[0])
    else FirstInside(g, ps[1..])
  }

  /** A found tile is the tile of the first point of ps inside the grid. */
  lemma {:induction false} FirstInsideIsFirst(g: Grid, ps: seq<Point>)
    requires Valid(g) && FirstInside(g, ps) != -1
    ensures exists i ::
      0 <= i < |ps| && Contains(g.bounds, ps[i]) && FirstInside(g, ps) == TileIdOfPoint(g, ps[i]) &&
      forall j :: 0 <= j < i ==> !Contains(g.bounds, ps[j])
  {
    if !Contains(g.bounds, ps[0]) {
      FirstInsideIsFirst(g, ps[1..]);
      var i :| 0 <= i < |ps[1..]| && Contains(g.bounds, ps[1..][i]) &&
        FirstInside(g, ps[1..]) == TileIdOfPoint(g, ps[1..][i]) &&
        forall j :: 0 <= j < i ==> !Contains(g.bounds, ps[1..][j]);
      assert forall j :: 1 <= j < i + 1 ==> ps[j] == ps[1..][j - 1];
      assert Contains(g.bounds, ps[i + 1]);
    }
  }

  /** The tile a search over box starts from: the tile of the box centre
      when that is on the extent, otherwise of the first corner on it; -1
      when neither the centre nor any corner is. */
  function SeedTile(g: Grid, box: Box): (id: int)
    requires Valid(g)
    ensures Contains(g.bounds, Aabb.Center(box)) ==> id == TileIdOfPoint(g, Aabb.Center(box))
    ensures id == -1 <==> forall p :: p in Probes(box) ==> !Contains(g.bounds, p)
    ensures id != -1 ==> ValidId(g, id)
  {
    FirstInside(g, Probes(box))
  }

  /** The seed of a well-formed box is a tile that meets it. */
  lemma SeedHits(g: Grid, box: Box)
    requires Valid(g) && WellFormed(box) && SeedTile(g, box) != -1
    ensures Hit(g, box, SeedTile(g, box))
  {
    var ps := Probes(box);
    FirstInsideIsFirst(g, ps);
    var i :| 0 <= i < |ps| && Contains(g.bounds, ps[i]) && SeedTile(g, box) == TileIdOfPoint(g, ps[i]);
    var p := ps[i];
    PointInItsTile(g, p);
    assert p in ps;
    var b := TileBounds(g, SeedTile(g, box));
    assert Contains(b, p) && Contains(box, p);
  }

  /** A search with no seed means the centre and all four corners of box
      lie outside the grid. */
  lemma NoSeed(g: Grid, box: Box)
    requires Valid(g) && SeedTile(g, box) == -1
    ensures !Contains(g.bounds, Aabb.Center(box))
    ensures !Contains(g.bounds, Point(box.minx, box.miny)) && !Contains(g.bounds, Point(box.maxx, box.maxy))
    ensures !Contains(g.bounds, Point(box.maxx, box.miny)) && !Contains(g.bounds, Point(box.minx, box.maxy))
  {
    assert Probes(box)[1] in Probes(box) && Probes(box)[2] in Probes(box);
    assert Probes(box)[3] in Probes(box) && Probes(box)[4] in Probes(box);
  }

  /** The ids 0 to n - 1. */
  function Range(n: nat): (r: set<int>)
    ensures |r| == n && forall i :: i in r <==> 0 <= i < n
  {
    if n == 0 then {} else
      var r := Range(n - 1) + {n - 1};
      assert Range(n - 1) !! {n - 1};
      r
  }

  /** A sequence without repeats has as many entries as its set. */
  lemma {:induction false} ElemsCard(s: seq<int>)
    requires NoDup(s)
    ensures |Elems(s)| == |s|
    decreases |s|
  {
    if s != [] {
      var s' := s[..|s| - 1];
      ElemsCard(s');
      assert Elems(s) == Elems(s') + {s[|s| - 1]};
      assert s[|s| - 1] !in Elems(s');
    }
  }

  /** A set with the same members as s is the set of s's entries. */
  lemma ElemsOf(e: set<int>, s: seq<int>)
    requires forall x :: x in e <==> x in s
    ensures e == Elems(s)
  {
    var f := Elems(s);
    assert forall x :: x in f <==> x in e;
  }

  /** Distinct ids below n are at most n of them. */
  lemma NoDupBound(s: seq<int>, n: nat)
    requires NoDup(s) && forall i :: 0 <= i < |s| ==> 0 <= s[i] < n
    ensures |s| <= n
  {
    ElemsCard(s);
    assert Range(n) == Elems(s) + (Range(n) - Elems(s));
  }

  /** queue is the unpopped end of hist, hist has no repeats, and seen
      holds exactly the entries of hist. */
  ghost predicate Queued(queue: seq<int>, seen: set<int>, hist: seq<int>)
  {
    |queue| <= |hist| && queue == hist[|hist| - |queue|..] &&
    NoDup(hist) && forall t :: t in seen <==> t in hist
  }

  /** Every entry of s is a tile of g. */
  predicate AllValid(g: Grid, s: seq<int>)
    requires Valid(g)
  {
    forall i :: 0 <= i < |s| ==> ValidId(g, s[i])
  }

  /** list is the popped part of hist filtered by inside. */
  predicate Collected(inside: set<int>, list: seq<int>, queue: seq<int>, hist: seq<int>)
    requires |queue| <= |hist|
  {
    list == Filter(inside, hist[..|hist| - |queue|])
  }

  /** Every existing neighbour of a collected tile is in seen. */
  ghost predicate Surrounded(g: Grid, list: seq<int>, seen: set<int>)
    requires Valid(g)
  {
    forall t, n :: t in list && ValidId(g, t) && n in Neighbours(g, t) && n != -1 ==> n in seen
  }

  /** The state of a search part way through, inside being the tiles
      that meet the query box.  hist lists every tile ever queued, in
      queueing order, and queue is the part of it not yet popped; list
      holds exactly the popped tiles in inside, in popping order; seen is
      the set of queued tiles; and every neighbour of a collected tile has
      been queued. */
  ghost predicate Searching(g: Grid, inside: set<int>, list: seq<int>, queue: seq<int>, seen: set<int>, hist: seq<int>)
    requires Valid(g)
  {
    Queued(queue, seen, hist) && AllValid(g, hist) &&
    Collected(inside, list, queue, hist) && Surrounded(g, list, seen) &&
    AllValid(g, list) && Grew(g, list, hist)
  }

  /** hist is what a search from hist[0] queues while it collects list, in
      breadth-first order, and each collected tile had been queued before
      the tiles after it were collected. */
  ghost predicate Grew(g: Grid, list: seq<int>, hist: seq<int>)
    requires Valid(g) && AllValid(g, list)
  {
    hist != [] ==> hist == Grown(g, [hist[0]], list) && Linked(g, [hist[0]], list)
  }

  /** Each tile of list is in the history of a search from start that has
      collected the tiles before it. */
  predicate Linked(g: Grid, start: seq<int>, list: seq<int>)
    requires Valid(g) && AllValid(g, list)
    decreases |list|
  {
    list == [] ||
    var l' := list[..|list| - 1];
    Linked(g, start, l') && list[|list| - 1] in Grown(g, start, l')
  }

  /** list[i] is a neighbour of a tile that comes before it in list. */
  predicate FoundFrom(g: Grid, list: seq<int>, i: int)
    requires Valid(g) && AllValid(g, list) && 0 <= i < |list|
  {
    exists j :: 0 <= j < i && list[i] in Neighbours(g, list[j])
  }

  /** In a linked list, each tile not in start neighbours an earlier one. */
  lemma {:induction false} LinkedFrom(g: Grid, start: seq<int>, list: seq<int>)
    requires Valid(g) && AllValid(g, list) && Linked(g, start, list)
    ensures forall i :: 0 <= i < |list| && list[i] !in start ==> FoundFrom(g, list, i)
    decreases |list|
  {
    if list != [] {
      var n := |list| - 1;
      var l' := list[..n];
      LinkedFrom(g, start, l');
      forall i | 0 <= i < |list| && list[i] !in start
        ensures FoundFrom(g, list, i)
      {
        if i < n {
          assert list[i] == l'[i];
          var j :| 0 <= j < i && l'[i] in Neighbours(g, l'[j]);
          assert l'[j] == list[j];
        } else {
          GrownFrom(g, start, l', list[n]);
          var j :| 0 <= j < |l'| && list[n] in Neighbours(g, l'[j]);
          assert l'[j] == list[j];
        }
      }
    }
  }

  /** A search starts with the seed queued and nothing collected. */
  lemma StartSearching(g: Grid, inside: set<int>, seed: int)
    requires Valid(g) && ValidId(g, seed)
    ensures Searching(g, inside, [], [seed], {seed}, [seed])
  {
    assert [seed][..0] == [];
  }

  /** A search that has queued nothing is trivially in a search state. */
  lemma EmptySearching(g: Grid, inside: set<int>)
    requires Valid(g)
    ensures Searching(g, inside, [], [], {}, [])
  {
    var e: seq<int> := [];
    assert e[..0] == e;
  }

  /** Every queued tile is a tile of the grid. */
  lemma QueueValid(g: Grid, queue: seq<int>, seen: set<int>, hist: seq<int>)
    requires Valid(g) && Queued(queue, seen, hist) && AllValid(g, hist)
    ensures AllValid(g, queue)
  {
    assert forall i :: 0 <= i < |queue| ==> queue[i] == hist[|hist| - |queue| + i];
  }

  /** Popping a whole queue of tiles outside inside empties it and keeps
      the search state. */
  lemma SkipPreserves(g: Grid, inside: set<int>, list: seq<int>, queue: seq<int>, seen: set<int>, hist: seq<int>)
    requires Valid(g) && Searching(g, inside, list, queue, seen, hist)
    requires FirstHit(inside, queue) == |queue|
    ensures Searching(g, inside, list, [], seen, hist)
  {
    SkipCollected(inside, list, queue, hist);
    assert Queued([], seen, hist);
  }

  /** Popping a whole queue of tiles outside inside collects nothing. */
  lemma SkipCollected(inside: set<int>, list: seq<int>, queue: seq<int>, hist: seq<int>)
    requires |queue| <= |hist| && queue == hist[|hist| - |queue|..]
    requires Collected(inside, list, queue, hist)
    requires FirstHit(inside, queue) == |queue|
    ensures Collected(inside, list, [], hist)
  {
    var m := |hist| - |queue|;
    assert hist[..|hist| - 0] == hist;
    assert hist == hist[..m] + queue;
    FilterSkip(inside, hist[..m], queue);
  }

  /** Popping k + 1 entries and queueing d keeps the queue discipline. */
  lemma QueuedStep(queue: seq<int>, seen: set<int>, hist: seq<int>, k: nat, d: seq<int>)
    requires Queued(queue, seen, hist) && k < |queue|
    requires NoDup(d) && forall x :: x in d ==> x !in seen
    ensures Queued(queue[k + 1..] + d, seen + Elems(d), hist + d)
    ensures |hist + d| - |queue[k + 1..] + d| == |hist| - |queue| + k + 1
  {
    var hist', queue' := hist + d, queue[k + 1..] + d;
    var m' := |hist'| - |queue'|;
    assert queue' == hist'[m'..];
    forall i, j | 0 <= i < j < |hist'|
      ensures hist'[i] != hist'[j]
    {
      if j >= |hist| && i < |hist| {
        assert hist'[j] in d;
        assert hist'[i] == hist[i] && hist[i] in seen;
      }
      if i >= |hist| {
        assert hist'[i] == d[i - |hist|] && hist'[j] == d[j - |hist|];
      }
    }
  }

  /** After popping k + 1 more entries and queueing d, the popped part of
      the history has grown by those k + 1 entries. */
  lemma PoppedStep(queue: seq<int>, hist: seq<int>, k: nat, d: seq<int>)
    requires |queue| <= |hist| && queue == hist[|hist| - |queue|..] && k < |queue|
    ensures var m := |hist| - |queue|;
      (hist + d)[..|hist + d| - |queue[k + 1..] + d|] == hist[..m] + queue[..k] + [queue[k]]
  {
    var m := |hist| - |queue|;
    assert hist[..m + k + 1] == hist[..m] + hist[m..m + k + 1];
    assert hist[m..m + k + 1] == queue[..k + 1] == queue[..k] + [queue[k]];
  }

  /** Entries not in inside add nothing to the filtered sequence. */
  lemma FilterSkip(inside: set<int>, pre: seq<int>, skipped: seq<int>)
    requires forall i :: 0 <= i < |skipped| ==> skipped[i] !in inside
    ensures Filter(inside, pre + skipped) == Filter(inside, pre)
  {
    FilterAppend(inside, pre, skipped);
    FilterNone(inside, skipped);
    assert Filter(inside, pre) + [] == Filter(inside, pre);
  }

  /** Filtering skipped entries that are not in inside, then one that is,
      appends just that one. */
  lemma FilterStep(inside: set<int>, pre: seq<int>, skipped: seq<int>, t: int)
    requires forall i :: 0 <= i < |skipped| ==> skipped[i] !in inside
    requires t in inside
    ensures Filter(inside, pre + skipped + [t]) == Filter(inside, pre) + [t]
  {
    assert (pre + skipped + [t])[..|pre + skipped|] == pre + skipped;
    FilterSkip(inside, pre, skipped);
  }

  /** Popping up to and including queue[k], the first entry in inside,
      appends it to the collected list. */
  lemma CollectedStep(inside: set<int>, list: seq<int>, queue: seq<int>, hist: seq<int>, k: nat, d: seq<int>)
    requires |queue| <= |hist| && queue == hist[|hist| - |queue|..]
    requires Collected(inside, list, queue, hist)
    requires k == FirstHit(inside, queue) && k < |queue|
    ensures Collected(inside, list + [queue[k]], queue[k + 1..] + d, hist + d)
  {
    var m := |hist| - |queue|;
    PoppedStep(queue, hist, k, d);
    FilterStep(inside, hist[..m], queue[..k], queue[k]);
  }

  /** Collecting a queued tile t and queueing its new neighbours d keeps
      the history breadth-first. */
  lemma GrewStep(g: Grid, list: seq<int>, seen: set<int>, hist: seq<int>, t: int, d: seq<int>)
    requires Valid(g) && AllValid(g, list) && Grew(g, list, hist)
    requires ValidId(g, t) && t in hist && forall x :: x in seen <==> x in hist
    requires d == Discovered(seen, Neighbours(g, t))
    ensures AllValid(g, list + [t]) && Grew(g, list + [t], hist + d)
  {
    ElemsOf(seen, hist);
    var l' := list + [t];
    assert l'[..|list|] == list;
    assert (hist + d)[0] == hist[0];
  }

  /** Popping up to and including the first tile in inside, then queueing
      its undiscovered neighbours, collects that tile and keeps the search
      state. */
  lemma ExpandPreserves(g: Grid, inside: set<int>, list: seq<int>, queue: seq<int>, seen: set<int>, hist: seq<int>,
                        list': seq<int>, queue': seq<int>, seen': set<int>, hist': seq<int>)
    requires Valid(g) && Searching(g, inside, list, queue, seen, hist)
    requires FirstHit(inside, queue) < |queue|
    requires var k := FirstHit(inside, queue);
      ValidId(g, queue[k]) &&
      var d := Discovered(seen, Neighbours(g, queue[k]));
      list' == list + [queue[k]] && queue' == queue[k + 1..] + d && seen' == seen + Elems(d) && hist' == hist + d
    ensures Searching(g, inside, list', queue', seen', hist')
  {
    var k := FirstHit(inside, queue);
    var m := |hist| - |queue|;
    var t := queue[k];
    assert t == hist[m + k];
    var ns := Neighbours(g, t);
    var d := Discovered(seen, ns);
    QueuedStep(queue, seen, hist, k, d);
    CollectedStep(inside, list, queue, hist, k, d);
    ValidStep(g, hist, t);
    GrewStep(g, list, seen, hist, t, d);
    SurroundedStep(g, list, seen, t);
  }

  /** Queueing the new neighbours of a tile keeps every queued entry a tile
      of the grid. */
  lemma ValidStep(g: Grid, hist: seq<int>, t: int)
    requires Valid(g) && AllValid(g, hist) && ValidId(g, t)
    ensures forall seen :: AllValid(g, hist + Discovered(seen, Neighbours(g, t)))
  {
    forall seen
      ensures AllValid(g, hist + Discovered(seen, Neighbours(g, t)))
    {
      var d := Discovered(seen, Neighbours(g, t));
      forall i | |hist| <= i < |hist + d|
        ensures ValidId(g, (hist + d)[i])
      {
        assert (hist + d)[i] in d;
      }
    }
  }

  /** Collecting t and queueing its new neighbours keeps every neighbour of
      a collected tile queued. */
  lemma SurroundedStep(g: Grid, list: seq<int>, seen: set<int>, t: int)
    requires Valid(g) && Surrounded(g, list, seen) && ValidId(g, t)
    ensures Surrounded(g, list + [t], seen + Elems(Discovered(seen, Neighbours(g, t))))
  {
    var d := Discovered(seen, Neighbours(g, t));
    forall u, n | u in list + [t] && ValidId(g, u) && n in Neighbours(g, u) && n != -1
      ensures n in seen + Elems(d)
    {
      if u != t {
        assert u in list;
      }
    }
  }

  /** A search whose queue has run dry has collected every queued tile in
      inside, and every tile in inside next to a collected one. */
  lemma Finished(g: Grid, inside: set<int>, list: seq<int>, seen: set<int>, hist: seq<int>)
    requires Valid(g) && Searching(g, inside, list, [], seen, hist)
    requires forall t :: t in inside ==> ValidId(g, t)
    ensures forall t :: t in hist && t in inside ==> t in list
    ensures forall t, n :: t in list && ValidId(g, t) && n in Neighbours(g, t) && n in inside ==> n in list
  {
    assert hist[..|hist| - 0] == hist;
    FilterMembers(inside, hist);
  }

  /** What a search from the seed of box guarantees at any point: the
      collected tiles are distinct tiles that meet box, no more than the
      grid has; the seed comes first once anything is collected; and once
      the queue is empty every tile that meets box has been collected. */
  lemma SearchResult(g: Grid, box: Box, seed: int, list: seq<int>, queue: seq<int>, seen: set<int>, hist: seq<int>)
    requires Valid(g) && Searching(g, HitSet(g, box), list, queue, seen, hist)
    requires seed == SeedTile(g, box) && |hist| > 0 && hist[0] == seed
    ensures NoDup(list) && |list| <= TileCount(g)
    ensures forall t :: t in list ==> Hit(g, box, t)
    ensures WellFormed(box) && (queue == [] || |list| > 0) ==> |list| > 0 && list[0] == seed
    ensures WellFormed(box) && queue == [] ==> forall t :: Hit(g, box, t) ==> t in list
    ensures AllValid(g, list) && hist == Grown(g, [seed], list)
    ensures forall i :: 0 < i < |list| ==> FoundFrom(g, list, i)
  {
    var m := |hist| - |queue|;
    assert NoDup(hist[..m]) by {
      assert forall i :: 0 <= i < m ==> hist[..m][i] == hist[i];
    }
    FilterNoDup(HitSet(g, box), hist[..m]);
    FilterMembers(HitSet(g, box), hist[..m]);
    forall i | 0 <= i < |list|
      ensures 0 <= list[i] < TileCount(g)
    {
      assert list[i] in HitSet(g, box);
    }
    NoDupBound(list, TileCount(g));
    LinkedFrom(g, [seed], list);
    forall i | 0 < i < |list|
      ensures list[i] !in [seed]
    {
      if list[i] == seed {
        assert list[i] in hist[..m];
        FilterHead(HitSet(g, box), hist[..m]);
      }
    }
    if WellFormed(box) {
      SeedHits(g, box);
      if queue == [] || |list| > 0 {
        assert 0 < m;
        FilterHead(HitSet(g, box), hist[..m]);
      }
      if queue == [] {
        Finished(g, HitSet(g, box), list, seen, hist);
        ClosedHoldsAll(g, box, list, seed);
      }
    }
  }

  /** The tiling system of one grid, with the working state of its tile
      search.  The grid itself never changes after construction. */
  class Tiles {
    const grid: Grid
    /** Tiles found so far by the current search. */
    var tilelist: seq<int>
    /** Tiles queued but not yet examined, front first. */
    var checklist: seq<int>
    /** Tiles ever queued by the current search. */
    var visited: set<int>
    /** Tiles ever queued by the current search, in queueing order. */
    ghost var history: seq<int>

    /** A tiling of bounds into squares of side tilesize. */
    constructor(bounds: Box, tilesize: int)
      requires NewGrid(bounds, tilesize).Ok?
      ensures Valid(grid) && grid == NewGrid(bounds, tilesize).value
      ensures grid.bounds == bounds && grid.tilesize == tilesize
      ensures tilelist == [] && checklist == [] && visited == {} && history == []
    {
      grid := NewGrid(bounds, tilesize).value;
      tilelist, checklist, visited, history := [], [], {}, [];
    }

    /** The queue is the unpopped end of the queueing history, and the
        visited set holds exactly the queued tiles. */
    ghost predicate Tracked()
      reads this
    {
      |checklist| <= |history| && checklist == history[|history| - |checklist|..] &&
      forall t :: t in visited <==> t in history
    }

    ghost predicate Explored(box: Box)
      reads this
      requires Valid(grid)
    {
      Searching(grid, HitSet(grid, box), tilelist, checklist, visited, history)
    }

    /** Whether id has already been considered by the current search:
        whether it has ever been put on the check list. */
    function InList(id: int): (b: bool)
      reads this
      ensures Tracked() ==>
        (b <==> id in history[..|history| - |checklist|] || id in checklist)
    {
      assert Tracked() ==> history == history[..|history| - |checklist|] + checklist;
      id in visited
    }

    /** Queue n unless it is -1 or has been considered already. */
    method Consider(n: int)
      modifies this
      ensures tilelist == old(tilelist)
      ensures if n != -1 && n !in old(visited) then
          checklist == old(checklist) + [n] && history == old(history) + [n] &&
          visited == old(visited) + {n}
        else
          checklist == old(checklist) && history == old(history) && visited == old(visited)
    {
      if n != -1 && !InList(n) {
        checklist := checklist + [n];
        history := history + [n];
        visited := visited + {n};
      }
    }

    /** Queue the neighbours of id that exist and have not been considered
        yet, east, west, north and south in that order. */
    method AddNeighbors(id: int)
      requires Valid(grid) && ValidId(grid, id)
      modifies this
      ensures tilelist == old(tilelist)
      ensures checklist == old(checklist) + Discovered(old(visited), Neighbours(grid, id))
      ensures history == old(history) + Discovered(old(visited), Neighbours(grid, id))
      ensures visited == old(visited) + Elems(Discovered(old(visited), Neighbours(grid, id)))
    {
      var ns := Neighbours(grid, id);
      ghost var seen, d: seq<int> := visited, [];
      for i := 0 to 4
        invariant d == Discovered(seen, ns[..i])
        invariant tilelist == old(tilelist)
        invariant checklist == old(checklist) + d && history == old(history) + d
        invariant visited == seen + Elems(d)
      {
        DiscoveredNext(seen, ns, i, visited);
        Consider(ns[i]);
        if ns[i] != -1 && ns[i] !in seen + Elems(d) {
          AppendOne(old(checklist), d, ns[i]);
          AppendOne(old(history), d, ns[i]);
          d := d + [ns[i]];
        }
      }
      assert ns[..4] == ns;
    }

    /** Pop tiles off the front of the check list until one meets box;
        queue that tile's new neighbours and return it.  Return -1 once
        the check list is exhausted. */
    method NextTile(box: Box) returns (id: int)
      requires Valid(grid) && forall i :: 0 <= i < |checklist| ==> ValidId(grid, checklist[i])
      modifies this
      ensures tilelist == old(tilelist)
      ensures id == -1 <==> FirstHit(HitSet(grid, box), old(checklist)) == |old(checklist)|
      ensures id == -1 ==> checklist == [] && visited == old(visited) && history == old(history)
      ensures id != -1 ==>
        var k := FirstHit(HitSet(grid, box), old(checklist));
        k < |old(checklist)| && id == old(checklist)[k] && ValidId(grid, id) &&
        var d := Discovered(old(visited), Neighbours(grid, id));
        checklist == old(checklist)[k + 1..] + d &&
        visited == old(visited) + Elems(d) && history == old(history) + d
    {
      ghost var popped := 0;
      while checklist != []
        invariant 0 <= popped <= |old(checklist)| && checklist == old(checklist)[popped..]
        invariant FirstHit(HitSet(grid, box), old(checklist)) == popped + FirstHit(HitSet(grid, box), checklist)
        invariant tilelist == old(tilelist) && visited == old(visited) && history == old(history)
        decreases |checklist|
      {
        var t := checklist[0];
        checklist := checklist[1..];
        if Intersects(TileBounds(grid, t), box) {
          AddNeighbors(t);
          return t;
        }
        popped := popped + 1;
      }
      return -1;
    }

    /** One round of the search: take the next tile that meets box with
        NextTile and append it to the tile list; the check list, visited
        set and history change as NextTile changes them. */
    method Advance(box: Box) returns (id: int)
      requires Valid(grid) && Explored(box) && 0 < |history|
      modifies this
      ensures Explored(box)
      ensures 0 < |history| && history[0] == old(history[0])
      ensures id == -1 <==> FirstHit(HitSet(grid, box), old(checklist)) == |old(checklist)|
      ensures id == -1 ==>
        checklist == [] && tilelist == old(tilelist) && visited == old(visited) && history == old(history)
      ensures id != -1 ==>
        var k := FirstHit(HitSet(grid, box), old(checklist));
        k < |old(checklist)| && id == old(checklist)[k] && ValidId(grid, id) &&
        var d := Discovered(old(visited), Neighbours(grid, id));
        tilelist == old(tilelist) + [id] && checklist == old(checklist)[k + 1..] + d &&
        visited == old(visited) + Elems(d) && history == old(history) + d
    {
      ghost var list0, queue0, seen0, hist0 := tilelist, checklist, visited, history;
      QueueValid(grid, checklist, visited, history);
      id := NextTile(box);
      if id == -1 {
        SkipPreserves(grid, HitSet(grid, box), list0, queue0, seen0, hist0);
      } else {
        tilelist := tilelist + [id];
        ExpandPreserves(grid, HitSet(grid, box), list0, queue0, seen0, hist0, tilelist, checklist, visited, history);
      }
    }

    /** Collect tiles with NextTile until the check list runs dry or
        maxtiles tiles have been found. */
    method Collect(box: Box, maxtiles: nat)
      requires Valid(grid) && Explored(box) && 0 < |history| && |tilelist| <= maxtiles
      modifies this
      ensures Explored(box) && |tilelist| <= maxtiles
      ensures 0 < |history| && history[0] == old(history[0])
      ensures |tilelist| < maxtiles ==> checklist == []
      ensures old(tilelist) <= tilelist && old(history) <= history
    {
      var done := false;
      while !done && |tilelist| < maxtiles
        invariant |tilelist| <= maxtiles
        invariant old(tilelist) <= tilelist && old(history) <= history
        invariant Explored(box)
        invariant 0 < |history| && history[0] == old(history[0])
        invariant done ==> checklist == []
        decreases maxtiles - |tilelist|, if done then 0 else 1
      {
        var id := Advance(box);
        done := id == -1;
      }
    }

    /** The tiles that meet box, at most maxtiles of them: a breadth-first
        walk over neighbours from the seed tile, in the order found. */
    method TileList(box: Box, maxtiles: nat := 4096) returns (list: seq<int>)
      requires Valid(grid)
      modifies this
      ensures list == tilelist && Explored(box)
      ensures |list| <= maxtiles && |list| <= TileCount(grid)
      ensures NoDup(list)
      ensures forall t :: t in list ==> Hit(grid, box, t)
      ensures SeedTile(grid, box) == -1 ==> list == []
      ensures WellFormed(box) && SeedTile(grid, box) != -1 && 0 < maxtiles ==>
        |list| > 0 && list[0] == SeedTile(grid, box)
      ensures WellFormed(box) && SeedTile(grid, box) != -1 && |list| < maxtiles ==>
        forall t :: Hit(grid, box, t) ==> t in list
      ensures |checklist| <= |history| && Collected(HitSet(grid, box), list, checklist, history)
      ensures AllValid(grid, list)
      ensures SeedTile(grid, box) != -1 ==> history == Grown(grid, [SeedTile(grid, box)], list)
      ensures forall i :: 0 < i < |list| ==> FoundFrom(grid, list, i)
    {
      tilelist, checklist, visited, history := [], [], {}, [];
      var seed := SeedTile(grid, box);
      if seed == -1 {
        EmptySearching(grid, HitSet(grid, box));
        assert history[..0] == [];
        return tilelist;
      }
      checklist, visited, history := [seed], {seed}, [seed];
      StartSearching(grid, HitSet(grid, box), seed);
      assert Explored(box);
      Collect(box, maxtiles);
      list := tilelist;
      SearchResult(grid, box, seed, list, checklist, visited, history);
    }
  }
}
