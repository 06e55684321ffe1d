/** URL routing: a table kept sorted so that the first match is the longest. */
module Routes {

  import opened Wrappers
  import opened LittleEndian

  datatype Errno = ENOENT | ENOMEM | EEXIST

  datatype Route = Route(prefix: seq<Byte>, queue: nat)

  // the bytes of slash and asterisk
  const CATCH_ALL: seq<Byte> := [47, 42]

  predicate Matches(r: Route, path: seq<Byte>) {
    r.prefix == CATCH_ALL || r.prefix <= path
  }

  /** A route matches its prefix followed by anything; any route but the catch-all matches nothing else, and
      the catch-all, slash and asterisk, matches everything. */
  lemma MatchesMeans(r: Route, path: seq<Byte>, tail: seq<Byte>)
    ensures Matches(r, r.prefix + tail)
    ensures r.prefix == [47, 42] ==> Matches(r, path)
    ensures r.prefix != [47, 42] ==>
              (Matches(r, path) <==>
               |r.prefix| <= |path| && forall i :: 0 <= i < |r.prefix| ==> path[i] == r.prefix[i])
  {
  }

  /** Longest prefixes first. */
  ghost predicate Sorted(s: seq<Route>) {
    forall i, j :: 0 <= i < j < |s| ==> |s[i].prefix| >= |s[j].prefix|
  }

  ghost predicate Distinct(s: seq<Route>) {
    forall i, j :: 0 <= i < j < |s| ==> s[i].prefix != s[j].prefix
  }

  /** `e` inserted at `k`, behind every route that is at least as long. */
  ghost predicate InsertedAt(s: seq<Route>, e: Route, k: nat, t: seq<Route>) {
    && k <= |s| && t == s[..k] + [e] + s[k..]
    && (forall i :: 0 <= i < k ==> |s[i].prefix| >= |e.prefix|)
    && (forall i :: k <= i < |s| ==> |s[i].prefix| < |e.prefix|)
  }

  lemma InsertKeeps(s: seq<Route>, e: Route, k: nat, t: seq<Route>)
    requires Sorted(s) && Distinct(s) && InsertedAt(s, e, k, t)
    requires forall i :: 0 <= i < |s| ==> s[i].prefix != e.prefix
    ensures Sorted(t) && Distinct(t) && multiset(t) == multiset(s) + multiset{e}
  {
    forall i, j | 0 <= i < j < |t| ensures |t[i].prefix| >= |t[j].prefix| && t[i].prefix != t[j].prefix {
      assert t[i] == if i < k then s[i] else if i == k then e else s[i - 1];
      assert t[j] == if j < k then s[j] else if j == k then e else s[j - 1];
    }
    InsertAddsOne(s, e, k);
  }

  lemma InsertAddsOne(s: seq<Route>, e: Route, k: nat)
    requires k <= |s|
    ensures multiset(s[..k] + [e] + s[k..]) == multiset(s) + multiset{e}
  {
    assert s == s[..k] + s[k..];
  }

  /** The state of the sorting loop: element `i` of `s` has moved down to position `j`. */
  ghost predicate Sunk(s: seq<Route>, i: nat, j: nat, t: seq<Route>) {
    && j <= i < |s| == |t|
    && (forall m :: 0 <= m < |s| && (m < j || m > i) ==> t[m] == s[m])
    && t[j] == s[i] && (forall m :: j < m <= i ==> t[m] == s[m - 1])
    && (forall m :: j <= m < i ==> |s[m].prefix| < |s[i].prefix|)
  }

  lemma SinkOne(s: seq<Route>, i: nat, j: nat, t: seq<Route>)
    requires Sunk(s, i, j, t) && 0 < j && |t[j].prefix| > |t[j - 1].prefix|
    ensures Sunk(s, i, j - 1, t[j := t[j - 1]][j - 1 := t[j]])
  {
    assert t[j] == s[i] && t[j - 1] == s[j - 1];
  }

  /** Nothing sinks below a sorted front. */
  lemma SortedStays(s: seq<Route>, i: nat, j: nat, t: seq<Route>)
    requires Sunk(s, i, j, t) && Sorted(s[..i + 1])
    ensures t == s
  {
    var front := s[..i + 1];
    assert forall m :: 0 <= m < i ==> |front[m].prefix| >= |front[i].prefix|;
  }

  lemma SunkIsInserted(s: seq<Route>, i: nat, j: nat, t: seq<Route>)
    requires Sunk(s, i, j, t) && i + 1 == |s| && Sorted(s[..i]) && (j > 0 ==> |s[i].prefix| <= |s[j - 1].prefix|)
    ensures InsertedAt(s[..i], s[i], j, t)
  {
    var front := s[..i];
    assert t == front[..j] + [s[i]] + front[j..];
    forall m | 0 <= m < j ensures |front[m].prefix| >= |s[i].prefix| {
      assert |front[m].prefix| >= |front[j - 1].prefix|;
    }
  }

  class RouteTable {
    var routes: seq<Route>

    ghost predicate Valid()
      reads this
    {
      Sorted(routes) && Distinct(routes)
    }

    constructor ()
      ensures Valid() && routes == []
    {
      routes := [];
    }

    method Find(url: seq<Byte>) returns (pos: Option<nat>)
      ensures pos.Some? ==> pos.value < |routes| && routes[pos.value].prefix == url
      ensures pos.None? ==> forall i :: 0 <= i < |routes| ==> routes[i].prefix != url
    {
      var i := 0;
      while i < |routes|
        invariant 0 <= i <= |routes| && forall j :: 0 <= j < i ==> routes[j].prefix != url
      {
        if routes[i].prefix == url {
          return Some(i);
        }
        i := i + 1;
      }
      return None;
    }

    /** The inner loop of the insertion sort, from position `i`. */
    method Sink(i: nat) returns (ghost j: nat)
      requires i < |routes|
      modifies this
      ensures Sunk(old(routes), i, j, routes) && (j > 0 ==> |old(routes)[i].prefix| <= |old(routes)[j - 1].prefix|)
    {
      var k: nat := i;
      while k > 0 && |routes[k].prefix| > |routes[k - 1].prefix|
        invariant Sunk(old(routes), i, k, routes)
      {
        SinkOne(old(routes), i, k, routes);
        routes := routes[k := routes[k - 1]][k - 1 := routes[k]];
        k := k - 1;
      }
      assert k > 0 ==> routes[k - 1] == old(routes)[k - 1];
      assert routes[k] == old(routes)[i];
      j := k;
    }

    /** ADD_URL, after the queue has been looked up and the URL copied; `granted` is whether the push can
        allocate. The new route goes behind every route that is at least as long. */
    method AddUrl(url: seq<Byte>, queue: nat, queueExists: bool, granted: bool) returns (r: Result<(), Errno>)
      requires Valid()
      modifies this
      ensures Valid()
      ensures r == if !queueExists then Err(ENOENT)
                   else if exists i :: 0 <= i < |old(routes)| && old(routes)[i].prefix == url then Err(EEXIST)
                   else if !granted then Err(ENOMEM) else Ok(())
      ensures r.Err? ==> routes == old(routes)
      ensures r.Ok? ==> multiset(routes) == multiset(old(routes)) + multiset{Route(url, queue)}
      ensures r.Ok? ==> exists k :: InsertedAt(old(routes), Route(url, queue), k, routes)
    {
      if !queueExists {
        return Err(ENOENT);
      }
      var found := Find(url);
      if found.Some? {
        return Err(EEXIST);
      }
      if !granted {
        return Err(ENOMEM);
      }
      var e := Route(url, queue);
      routes := routes + [e];
      Sort(e, old(routes));
      ghost var k :| InsertedAt(old(routes), e, k, routes);
      InsertKeeps(old(routes), e, k, routes);
      return Ok(());
    }

    /** The insertion sort of ADD_URL, on a sorted table with one route appended. */
    method Sort(ghost e: Route, ghost s: seq<Route>)
      requires Sorted(s) && routes == s + [e]
      modifies this
      ensures exists k :: InsertedAt(s, e, k, routes)
    {
      var i := 1;
      assert s == [] ==> InsertedAt(s, e, 0, routes);
      while i < |routes|
        invariant 1 <= i <= |s| + 1 && |routes| == |s| + 1
        invariant i <= |s| ==> routes == s + [e]
        invariant i == |s| + 1 ==> exists k :: InsertedAt(s, e, k, routes)
      {
        ghost var was := routes;
        ghost var j := Sink(i);
        if i < |s| {
          assert was[..i + 1] == s[..i + 1];
          SortedStays(was, i, j, routes);
        } else {
          assert was[..i] == s;
          SunkIsInserted(was, i, j, routes);
        }
        i := i + 1;
      }
    }

    /** REMOVE_URL */
    method RemoveUrl(url: seq<Byte>) returns (r: Result<(), Errno>)
      requires Valid()
      modifies this
      ensures Valid()
      ensures r.Err? ==> r.error == ENOENT && routes == old(routes)
      ensures r.Err? ==> forall i :: 0 <= i < |routes| ==> routes[i].prefix != url
      ensures r.Ok? ==> exists i :: RemovedAt(old(routes), url, i, routes)
    {
      var pos := Find(url);
      if pos.None? {
        return Err(ENOENT);
      }
      var i := pos.value;
      routes := routes[..i] + routes[i + 1..];
      assert RemovedAt(old(routes), url, i, routes);
      RemoveKeeps(old(routes), url, i, routes);
      return Ok(());
    }

    /** `route`: the queue of a matching route that is as long as any that match. */
    method Lookup(path: seq<Byte>) returns (r: Option<nat>)
      requires Valid()
      ensures r.None? <==> forall i :: 0 <= i < |routes| ==> !Matches(routes[i], path)
      ensures r.Some? ==> exists i: nat :: Chosen(routes, path, i) && r.value == routes[i].queue
    {
      var i := 0;
      while i < |routes|
        invariant 0 <= i <= |routes| && forall j :: 0 <= j < i ==> !Matches(routes[j], path)
      {
        if Matches(routes[i], path) {
          assert Chosen(routes, path, i);
          return Some(routes[i].queue);
        }
        i := i + 1;
      }
      return None;
    }
  }

  ghost predicate RemovedAt(s: seq<Route>, url: seq<Byte>, i: nat, t: seq<Route>) {
    i < |s| && s[i].prefix == url && t == s[..i] + s[i + 1..]
  }

  lemma RemoveKeeps(s: seq<Route>, url: seq<Byte>, i: nat, t: seq<Route>)
    requires Sorted(s) && Distinct(s) && RemovedAt(s, url, i, t)
    ensures Sorted(t) && Distinct(t) && multiset(s) == multiset(t) + multiset{s[i]}
    ensures forall j :: 0 <= j < |t| ==> t[j].prefix != url
  {
    forall j, k | 0 <= j < k < |t| ensures |t[j].prefix| >= |t[k].prefix| && t[j].prefix != t[k].prefix {
      assert t[j] == s[if j < i then j else j + 1] && t[k] == s[if k < i then k else k + 1];
    }
    forall j | 0 <= j < |t| ensures t[j].prefix != url {
      assert t[j] == s[if j < i then j else j + 1];
    }
    RemoveTakesOne(s, i);
  }

  lemma RemoveTakesOne(s: seq<Route>, i: nat)
    requires i < |s|
    ensures multiset(s) == multiset(s[..i] + s[i + 1..]) + multiset{s[i]}
  {
    assert s == s[..i] + [s[i]] + s[i + 1..];
  }

  /** Route `i` is the first that matches, and no matching route is longer. */
  ghost predicate Chosen(s: seq<Route>, path: seq<Byte>, i: nat) {
    && i < |s| && Matches(s[i], path) && (forall j :: 0 <= j < i ==> !Matches(s[j], path))
    && forall j :: 0 <= j < |s| && Matches(s[j], path) ==> |s[j].prefix| <= |s[i].prefix|
  }

  /** Only the catch-all can share its length with the route chosen: otherwise the longest match is unique. */
  lemma LongestIsUnique(s: seq<Route>, path: seq<Byte>, i: nat, j: nat)
    requires Distinct(s) && Chosen(s, path, i) && j < |s| && j != i && Matches(s[j], path)
    ensures |s[j].prefix| < |s[i].prefix| || s[i].prefix == CATCH_ALL || s[j].prefix == CATCH_ALL
  {
    var a, b := s[i].prefix, s[j].prefix;
    if a <= path && b <= path {
      assert |a| == |b| ==> a == b;
    }
  }

  /** The catch-all stands in front of route `i`. */
  ghost predicate Shadowed(s: seq<Route>, i: nat) {
    exists c :: 0 <= c < i && c < |s| && s[c].prefix == CATCH_ALL
  }

  /** A route is chosen for some path if and only if the catch-all does not stand in front of it. */
  lemma ChosenIffNotShadowed(s: seq<Route>, i: nat)
    requires Sorted(s) && Distinct(s) && i < |s|
    ensures (exists path :: Chosen(s, path, i)) <==> !Shadowed(s, i)
  {
    if Shadowed(s, i) {
      var c :| 0 <= c < i && s[c].prefix == CATCH_ALL;
      forall path ensures !Chosen(s, path, i) {
        assert Matches(s[c], path);
      }
    } else {
      var path := s[i].prefix;
      forall j | 0 <= j < i ensures !Matches(s[j], path) {
        var longer := s[j].prefix;
        assert longer <= path ==> longer == path;
      }
      assert Chosen(s, path, i);
    }
  }

  /** Beside the catch-all at `c`, the length decides which routes can be chosen: all longer ones and none
      of the shorter ones. */
  lemma LengthDecides(s: seq<Route>, c: nat, i: nat)
    requires Sorted(s) && Distinct(s) && c < |s| && i < |s| && i != c && s[c].prefix == CATCH_ALL
    ensures Shadowed(s, i) <==> c < i
    ensures |s[i].prefix| > |CATCH_ALL| ==> i < c
    ensures |s[i].prefix| < |CATCH_ALL| ==> c < i
  {
    if Shadowed(s, i) {
      var d :| 0 <= d < i && s[d].prefix == CATCH_ALL;
      assert d == c;
    }
  }

  /** Adding a route keeps the order of the others, and puts it in front of exactly the shorter ones: of two
      routes of one length the one added first stays in front. */
  lemma AddedBehindItsLength(s: seq<Route>, e: Route, k: nat, t: seq<Route>, i: nat)
    requires InsertedAt(s, e, k, t) && i < |s|
    ensures t[k] == e && t[if i < k then i else i + 1] == s[i]
    ensures i < k <==> |s[i].prefix| >= |e.prefix|
  {
  }
}
