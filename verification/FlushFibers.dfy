/**
 The flush of one checkpoint by several fibers.

 With more than one flush fiber a mutex protects the choice of the next buffer, and it is dropped
 before the chosen buffer is marked as being written. Choosing and marking are therefore two steps
 here, and steps of other fibers come between them. A buffer that is chosen twice is written twice,
 so chosen buffers and running writes are bags.
 */
module FlushFibers {

  import opened Options
  import opened Sequences
  import opened FlushGraph

  /** `chosen`: chosen and not marked yet; `running`: writes that have not completed. `follow`: the
      chosen buffers a completion took because nothing waits below them any more; `takes`: every choice
      so far. The last two record history and are read by no step. */
  datatype Fibers<!B> = Fibers(
    f: Flush<B>,
    chosen: multiset<B>,
    running: multiset<B>,
    follow: set<B>,
    takes: seq<B>)

  ghost predicate Enabled<B(!new)>(s: Fibers<B>, step: Step<B>) {
    match step
    case Fetch(room) => room > 0 && s.f.cursor <= |s.f.list|
    case Begin(b) => b in s.chosen && b in s.f.g
    case Finish(b) =>
      && b in s.running && b in s.f.g && (s.f.g[b].up.Some? ==> s.f.g[b].up.value in s.f.g)
      && s.f.cursor <= |s.f.list|
    case Outside(_) => FlushGraph.Enabled(s.f, step)
  }

  ghost function Chosen<B(!new)>(s: Fibers<B>, f: Flush<B>, found: seq<B>): Fibers<B> {
    s.(f := f.(picked := f.picked + Elements(found)), chosen := s.chosen + multiset(found), takes := s.takes + found)
  }

  ghost function FetchStep<B(!new)>(s: Fibers<B>, room: nat): Fibers<B>
    requires s.f.cursor <= |s.f.list|
  {
    var (found, cursor) := Scan(s.f.g, s.f.id, s.f.list, s.f.cursor, room);
    Chosen(s, s.f.(cursor := cursor), found)
  }

  ghost function BeginStep<B(!new)>(s: Fibers<B>, b: B): Fibers<B>
    requires b in s.f.g
  {
    s.(f := Start(s.f, b),
       chosen := s.chosen - multiset{b}, running := s.running + multiset{b}, follow := s.follow - {b})
  }

  /** The completion of `b` takes the buffer above it. */
  ghost predicate Follows<B(!new)>(f: Flush<B>, b: B)
    requires b in f.g && (f.g[b].up.Some? ==> f.g[b].up.value in f.g)
  {
    f.count != 1 && Release(f.g, b).1.Some?
  }

  ghost function FinishStep<B(!new)>(s: Fibers<B>, b: B): Fibers<B>
    requires b in s.f.g && (s.f.g[b].up.Some? ==> s.f.g[b].up.value in s.f.g) && s.f.cursor <= |s.f.list|
  {
    var (t, next) := Complete(s.f, b);
    var found := if next.Some? then [next.value] else [];
    Chosen(s, t, found).(
      running := s.running - multiset{b},
      follow := if Follows(s.f, b) then s.follow + Elements(found) else s.follow)
  }

  /** One step; a step that is not enabled does nothing. */
  ghost function Apply<B(!new)>(s: Fibers<B>, step: Step<B>): Fibers<B> {
    if !Enabled(s, step) then s
    else
      match step
      case Fetch(room) => FetchStep(s, room)
      case Begin(b) => BeginStep(s, b)
      case Finish(b) => FinishStep(s, b)
      case Outside(g) => s.(f := s.f.(g := g))
  }

  ghost function Exec<B(!new)>(s: Fibers<B>, steps: seq<Step<B>>): Fibers<B> {
    if steps == [] then s else Apply(Exec(s, steps[..|steps| - 1]), steps[|steps| - 1])
  }

  ghost function Begun<B(!new)>(f: Flush<B>): Fibers<B> {
    Fibers(f, multiset{}, multiset{}, {}, [])
  }

  // ---------- the window ----------

  /** A scan from here with this room reaches a buffer that is chosen but not marked: it lies ahead, and
      fewer than `room` ready buffers are listed before it. */
  ghost predicate Reaches<B(!new)>(f: Flush<B>, follow: set<B>, room: nat) {
    exists p :: f.cursor <= p < |f.list| && f.list[p] in follow && ReadyIn(f.g, f.id, f.list[f.cursor..p]) < room
  }

  /** The step scans the list and reaches such a buffer. A completion scans unless it is the last one or
      releases the last count of the buffer above. */
  ghost predicate InWindow<B(!new)>(s: Fibers<B>, step: Step<B>) {
    && Enabled(s, step)
    && match step
       case Fetch(room) => Reaches(s.f, s.follow, room)
       case Finish(b) => s.f.count != 1 && !ReleasesUp(s.f.g, b) && Reaches(s.f, s.follow, 1)
       case Begin(_) => false
       case Outside(_) => false
  }

  ghost predicate ReleasesUp<B(!new)>(g: Graph<B>, b: B) {
    b in g && g[b].up.Some? && g[b].up.value in g && g[g[b].up.value].wait == 1
  }

  lemma {:induction false} ScanDistinct<B>(g: Graph<B>, id: int, list: seq<B>, cursor: nat, room: nat)
    requires cursor <= |list| && Distinct(list)
    ensures Distinct(Scan(g, id, list, cursor, room).0)
    ensures forall b :: b in Scan(g, id, list, cursor, room).0 ==> b in Ahead(list, cursor)
    decreases |list| - cursor
  {
    if room > 0 && cursor < |list| {
      var left := if Ready(g, id, list[cursor]) then room - 1 else room;
      ScanDistinct(g, id, list, cursor + 1, left);
      AheadMembers(list, cursor + 1);
      DistinctConcat([list[cursor]], Scan(g, id, list, cursor + 1, left).0);
    }
  }

  lemma FoundIsListed<B(!new)>(f: Flush<B>, room: nat, b: B) returns (p: nat)
    requires f.cursor <= |f.list| && Distinct(f.list) && b in Scan(f.g, f.id, f.list, f.cursor, room).0
    ensures p < |f.list| && f.list[p] == b
  {
    hide Scan, Distinct;
    ScanDistinct(f.g, f.id, f.list, f.cursor, room);
    AheadMembers(f.list, f.cursor);
    var q :| 0 <= q < |f.list[f.cursor..]| && f.list[f.cursor..][q] == b;
    p := f.cursor + q;
  }

  /** A scan takes a chosen, unmarked buffer if and only if it reaches one. */
  lemma ScanMeets<B(!new)>(f: Flush<B>, follow: set<B>, room: nat)
    requires f.cursor <= |f.list| && Distinct(f.list)
    requires forall b :: b in follow ==> Ready(f.g, f.id, b)
    ensures Reaches(f, follow, room) <==> exists b :: b in follow && b in Scan(f.g, f.id, f.list, f.cursor, room).0
  {
    hide Ready, Scan, Distinct, ReadyIn;
    var found := Scan(f.g, f.id, f.list, f.cursor, room).0;
    if Reaches(f, follow, room) {
      var p :| f.cursor <= p < |f.list| && f.list[p] in follow && ReadyIn(f.g, f.id, f.list[f.cursor..p]) < room;
      ScanTakes(f.g, f.id, f.list, f.cursor, room, p);
    }
    if b :| b in follow && b in found {
      var p := FoundIsListed(f, room, b);
      ScanTakes(f.g, f.id, f.list, f.cursor, room, p);
    }
  }

  // ---------- the invariant ----------

  ghost predicate Bag<B(!new)>(bag: multiset<B>, elements: set<B>) {
    forall b :: bag[b] == if b in elements then 1 else 0
  }

  /** Every choice made once, and every buffer in hand chosen before. */
  ghost predicate TakesInv<B(!new)>(takes: seq<B>, picked: set<B>, writing: set<B>, done: set<B>) {
    Distinct(takes) && forall b :: b in takes <==> b in picked + writing + done
  }

  /** The buffer invariant, where a chosen buffer above may still lie ahead of the scan. */
  ghost predicate BufsInv<B(!new)>(f: Flush<B>, follow: set<B>) {
    && f.cursor <= |f.list| && f.list != [] && Distinct(f.list) && follow <= f.picked
    && BufInv(f, Ahead(f.list, 0), Ahead(f.list, f.cursor) - follow)
  }

  ghost predicate GraphInv<B(!new)>(f: Flush<B>, follow: set<B>) {
    && BufsInv(f, follow)
    && var dom := Ahead(f.list, 0);
    && UpInv(f.orig, dom)
    && LogInv(f.log, f.done, f.writing, f.orig, dom)
    && CountInv(f, dom)
  }

  ghost predicate Inv<B(!new)>(s: Fibers<B>) {
    && GraphInv(s.f, s.follow)
    && Bag(s.chosen, s.f.picked) && Bag(s.running, s.f.writing)
    && TakesInv(s.takes, s.f.picked, s.f.writing, s.f.done)
  }

  /** The chosen buffers are ready; what is being written or done is not. */
  lemma Readiness<B(!new)>(f: Flush<B>, follow: set<B>)
    requires BufsInv(f, follow)
    ensures forall b :: b in f.picked ==> Ready(f.g, f.id, b)
    ensures forall b :: b in f.writing + f.done ==> !Ready(f.g, f.id, b)
    ensures f.picked * Ahead(f.list, f.cursor) <= follow
  {
  }

  /** A fetch takes a chosen, unmarked buffer a second time if and only if the list position `p` of that
      buffer is ahead and fewer than `room` ready buffers are listed before it. */
  lemma TakenTwiceIff<B(!new)>(s: Fibers<B>, room: nat, p: nat)
    requires Inv(s) && p < |s.f.list| && s.f.list[p] in s.f.picked
    ensures s.f.list[p] in Scan(s.f.g, s.f.id, s.f.list, s.f.cursor, room).0 <==>
            s.f.cursor <= p && ReadyIn(s.f.g, s.f.id, s.f.list[s.f.cursor..p]) < room
  {
    hide BufInv, Ready, Scan, Bag;
    Readiness(s.f, s.follow);
    ScanTakes(s.f.g, s.f.id, s.f.list, s.f.cursor, room, p);
  }

  /** A scan without a chosen buffer in reach keeps the invariant. */
  lemma ScanKeeps<B(!new)>(f: Flush<B>, follow: set<B>, found: seq<B>, cursor: nat, room: nat)
    requires BufsInv(f, follow) && !Reaches(f, follow, room)
    requires (found, cursor) == Scan(f.g, f.id, f.list, f.cursor, room)
    ensures BufsInv(f.(cursor := cursor, picked := f.picked + Elements(found)), follow)
  {
    hide Fields, Counts, Reaches;
    Readiness(f, follow);
    ScanMeets(f, follow, room);
    ScanSets(f.g, f.id, f.list, f.cursor, room);
    var t := f.(cursor := cursor, picked := f.picked + Elements(found));
    TakeKeepsBufs(f, t, Ahead(f.list, 0), Ahead(f.list, f.cursor) - follow,
                  Ahead(f.list, cursor) - follow, Elements(found));
  }

  /** What a scan finds was chosen before exactly when it reaches a chosen, unmarked buffer. */
  lemma ScanTwice<B(!new)>(s: Fibers<B>, found: seq<B>, cursor: nat, room: nat)
    requires BufsInv(s.f, s.follow) && TakesInv(s.takes, s.f.picked, s.f.writing, s.f.done)
    requires (found, cursor) == Scan(s.f.g, s.f.id, s.f.list, s.f.cursor, room)
    ensures Distinct(found)
    ensures Distinct(s.takes + found) <==> !Reaches(s.f, s.follow, room)
  {
    hide BufInv, Reaches;
    Readiness(s.f, s.follow);
    ScanMeets(s.f, s.follow, room);
    ScanSets(s.f.g, s.f.id, s.f.list, s.f.cursor, room);
    ScanDistinct(s.f.g, s.f.id, s.f.list, s.f.cursor, room);
    DistinctConcat(s.takes, found);
    var taken := set x | x in found;
    forall b | b in found
      ensures b in s.takes <==> b in s.follow
    {
      assert b in taken && Ready(s.f.g, s.f.id, b) && b in Ahead(s.f.list, s.f.cursor);
      assert b in s.f.picked ==> b in s.f.picked * Ahead(s.f.list, s.f.cursor);
    }
  }

  lemma BagGrows<B(!new)>(bag: multiset<B>, elements: set<B>, found: seq<B>)
    requires Bag(bag, elements) && Distinct(found) && forall b :: b in found ==> b !in elements
    ensures Bag(bag + multiset(found), elements + Elements(found))
  {
    forall b
      ensures multiset(found)[b] == if b in found then 1 else 0
    {
      CountOnce(found, b);
    }
  }

  lemma {:induction false} CountOnce<B(!new)>(found: seq<B>, b: B)
    requires Distinct(found)
    ensures multiset(found)[b] == if b in found then 1 else 0
  {
    if found != [] {
      var n := |found| - 1;
      CountOnce(found[..n], b);
      assert found == found[..n] + [found[n]];
    }
  }

  // ---------- every step ----------

  lemma FetchKeeps<B(!new)>(s: Fibers<B>, room: nat)
    requires Inv(s) && room > 0
    ensures Distinct(FetchStep(s, room).takes) <==> !Reaches(s.f, s.follow, room)
    ensures !Reaches(s.f, s.follow, room) ==> Inv(FetchStep(s, room))
  {
    hide BufInv, UpInv, LogInv, Reaches, Bag;
    var (found, cursor) := Scan(s.f.g, s.f.id, s.f.list, s.f.cursor, room);
    ScanTwice(s, found, cursor, room);
    if !Reaches(s.f, s.follow, room) {
      ScanKeeps(s.f, s.follow, found, cursor, room);
      DistinctConcat(s.takes, found);
      BagGrows(s.chosen, s.f.picked, found);
      if found != [] {
        assert found[0] in FetchStep(s, room).f.picked;
      }
    }
  }

  /** A marked buffer may count as ahead again: it is not ready any more. */
  lemma MarkedAhead<B(!new)>(f: Flush<B>, dom: set<B>, ahead: set<B>, wider: set<B>, b: B)
    requires BufInv(f, dom, ahead) && b in f.writing && ahead <= wider <= ahead + {b}
    ensures BufInv(f, dom, wider)
  {
  }

  lemma BeginGraph<B(!new)>(f: Flush<B>, follow: set<B>, b: B)
    requires GraphInv(f, follow) && b in f.picked
    ensures b in f.g && b !in f.done + f.writing && GraphInv(Start(f, b), follow - {b})
  {
    hide BufInv, UpInv, LogInv, Distinct;
    var dom, ahead := Ahead(f.list, 0), Ahead(f.list, f.cursor) - follow;
    Readiness(f, follow);
    BeginKeepsBufs(f, dom, ahead, b);
    MarkedAhead(Start(f, b), dom, ahead, Ahead(f.list, f.cursor) - (follow - {b}), b);
    ChosenIsFree(f, dom, ahead, b);
    StartKeepsLog(f, dom, b);
  }

  lemma BeginKeeps<B(!new)>(s: Fibers<B>, b: B)
    requires Inv(s) && b in s.chosen
    ensures b in s.f.g && Inv(BeginStep(s, b))
  {
    hide GraphInv, Distinct;
    assert b in s.f.picked;
    BeginGraph(s.f, s.follow, b);
  }

  lemma ChosenIsFree<B(!new)>(f: Flush<B>, dom: set<B>, ahead: set<B>, b: B)
    requires BufInv(f, dom, ahead) && b in f.picked
    ensures b in dom && b !in f.done + f.writing && Below(f.orig, dom, b) <= f.done
  {
    ZeroMeansDone(f, dom, ahead, b);
  }

  /** No completion dereferences a missing buffer. */
  lemma FinishDefined<B(!new)>(f: Flush<B>, dom: set<B>, ahead: set<B>, b: B)
    requires BufInv(f, dom, ahead) && UpInv(f.orig, dom) && b in f.writing
    ensures b in dom && b in f.g && b in f.orig && b !in f.done && f.g[b].state == Flushing
    ensures f.g[b].up == f.orig[b].up != Some(b) && (f.g[b].up.Some? ==> f.g[b].up.value in f.g)
  {
    ReleaseCounts(f, dom, ahead, b);
  }

  /** A completion that does not release the buffer above changes no buffer's readiness. */
  lemma ReadinessKept<B(!new)>(f: Flush<B>, r: Flush<B>, dom: set<B>, ahead: set<B>, b: B)
    requires BufInv(f, dom, ahead) && UpInv(f.orig, dom) && b in f.writing && AfterRelease(f, r, b)
    requires b in f.g && forall u :: f.g[b].up == Some(u) && u in r.g ==> r.g[u].wait != 0
    ensures forall x :: Ready(f.g, f.id, x) <==> Ready(r.g, f.id, x)
  {
    FinishDefined(f, dom, ahead, b);
    if f.orig[b].up.Some? {
      var u := f.orig[b].up.value;
      assert b in Below(f.orig, dom - f.done, u);
    }
  }

  lemma {:induction false} ScanSame<B>(g: Graph<B>, g': Graph<B>, id: int, list: seq<B>, cursor: nat, room: nat)
    requires cursor <= |list| && forall x :: Ready(g, id, x) <==> Ready(g', id, x)
    ensures Scan(g, id, list, cursor, room) == Scan(g', id, list, cursor, room)
    decreases |list| - cursor
  {
    hide Ready;
    if room > 0 && cursor < |list| {
      ScanSame(g, g', id, list, cursor + 1, if Ready(g, id, list[cursor]) then room - 1 else room);
    }
  }

  lemma {:induction false} ReadyInSame<B>(g: Graph<B>, g': Graph<B>, id: int, list: seq<B>)
    requires forall x :: Ready(g, id, x) <==> Ready(g', id, x)
    ensures ReadyIn(g, id, list) == ReadyIn(g', id, list)
  {
    hide Ready;
    if list != [] {
      ReadyInSame(g, g', id, list[1..]);
    }
  }

  lemma ReachesSame<B(!new)>(f: Flush<B>, r: Flush<B>, follow: set<B>, room: nat)
    requires r.list == f.list && r.cursor == f.cursor && r.id == f.id
    requires forall x :: Ready(f.g, f.id, x) <==> Ready(r.g, f.id, x)
    ensures Reaches(f, follow, room) <==> Reaches(r, follow, room)
  {
    hide Ready, ReadyIn;
    forall p | f.cursor <= p < |f.list|
      ensures ReadyIn(f.g, f.id, f.list[f.cursor..p]) == ReadyIn(r.g, f.id, f.list[f.cursor..p])
    {
      ReadyInSame(f.g, r.g, f.id, f.list[f.cursor..p]);
    }
  }

  /** The last completion. */
  lemma LastGraph<B(!new)>(f: Flush<B>, follow: set<B>, b: B)
    requires GraphInv(f, follow) && b in f.writing && f.count == 1
    requires b in f.g && (f.g[b].up.Some? ==> f.g[b].up.value in f.g)
    ensures b !in f.picked + f.done && GraphInv(Complete(f, b).0, follow)
  {
    hide Fields, Counts, LogInv, UpInv, Distinct;
    var dom, ahead, t := Ahead(f.list, 0), Ahead(f.list, f.cursor) - follow, Complete(f, b).0;
    FinishDefined(f, dom, ahead, b);
    FinishKeepsLog(f, t, dom, b);
    SubsetSize(t.done, dom);
    LastBufs(f, t, ahead, b);
  }

  lemma LastIs<B(!new)>(s: Fibers<B>, b: B)
    requires b in s.f.g && (s.f.g[b].up.Some? ==> s.f.g[b].up.value in s.f.g) && s.f.cursor <= |s.f.list|
    requires s.f.count == 1
    ensures FinishStep(s, b) == s.(f := Complete(s.f, b).0, running := s.running - multiset{b})
  {
    var none: seq<B> := [];
    assert Elements(none) == {} && s.takes + none == s.takes && s.f.picked + Elements(none) == s.f.picked;
    assert s.chosen + multiset(none) == s.chosen;
  }

  lemma LastKeeps<B(!new)>(s: Fibers<B>, b: B)
    requires Inv(s) && b in s.f.writing && s.f.count == 1 && s.f.cursor <= |s.f.list|
    requires b in s.f.g && (s.f.g[b].up.Some? ==> s.f.g[b].up.value in s.f.g)
    ensures Inv(FinishStep(s, b))
  {
    hide GraphInv, Distinct, FinishStep;
    LastGraph(s.f, s.follow, b);
    LastIs(s, b);
  }

  /** Starting a ready buffer and choosing it differ only in the mark. */
  lemma ChosenNotMarked<B(!new)>(t: Flush<B>, dom: set<B>, ahead: set<B>, u: B)
    requires u in t.g && BufInv(Start(t, u), dom, ahead)
    requires u in dom - t.done - t.writing - t.picked && t.g[u].state == Dirty
    ensures BufInv(t.(picked := t.picked + {u}), dom, ahead - {u})
  {
    assert Start(t, u).picked == t.picked;
  }

  /** A completion that takes the buffer above keeps the graph invariant. */
  lemma FollowGraph<B(!new)>(f: Flush<B>, follow: set<B>, b: B, u: B)
    requires GraphInv(f, follow) && b in f.writing
    requires b in f.g && (f.g[b].up.Some? ==> f.g[b].up.value in f.g)
    requires Follows(f, b) && Release(f.g, b).1 == Some(u)
    ensures u !in f.picked + f.writing + f.done + {b}
    ensures GraphInv(Released(f, b).(picked := f.picked + {u}), follow + {u})
  {
    hide BufInv, LogInv, UpInv, Distinct;
    var dom, ahead, r := Ahead(f.list, 0), Ahead(f.list, f.cursor) - follow, Released(f, b);
    FinishDefined(f, dom, ahead, b);
    ReleasedEffect(f, b);
    ReleaseBufs(f, r, dom, ahead, b);
    FinishKeepsLog(f, r, dom, b);
    ChosenNotMarked(r, dom, ahead, u);
    var t := r.(picked := f.picked + {u});
    assert ahead - {u} == Ahead(f.list, f.cursor) - (follow + {u});
    assert u in t.picked;
    DoneInList(f, dom, ahead);
    CountAfter(f, t, dom, b);
  }

  lemma DoneInList<B(!new)>(f: Flush<B>, dom: set<B>, ahead: set<B>)
    requires BufInv(f, dom, ahead)
    ensures f.done <= dom
  {
  }

  lemma FollowKeeps<B(!new)>(s: Fibers<B>, b: B)
    requires Inv(s) && b in s.f.writing && s.f.cursor <= |s.f.list|
    requires b in s.f.g && (s.f.g[b].up.Some? ==> s.f.g[b].up.value in s.f.g)
    requires Follows(s.f, b)
    ensures Inv(FinishStep(s, b))
  {
    hide GraphInv, Distinct, FinishStep;
    var u := Release(s.f.g, b).1.value;
    FollowGraph(s.f, s.follow, b, u);
    FollowIs(s, b, u);
    DistinctConcat(s.takes, [u]);
    assert Distinct([u]) by { SingleDistinct(u); }
  }

  lemma SingleDistinct<T>(x: T)
    ensures Distinct([x])
  {
  }

  lemma FollowIs<B(!new)>(s: Fibers<B>, b: B, u: B)
    requires b in s.f.g && (s.f.g[b].up.Some? ==> s.f.g[b].up.value in s.f.g) && s.f.cursor <= |s.f.list|
    requires Follows(s.f, b) && Release(s.f.g, b).1 == Some(u)
    ensures FinishStep(s, b) == Fibers(Released(s.f, b).(picked := s.f.picked + {u}), s.chosen + multiset{u},
                                       s.running - multiset{b}, s.follow + {u}, s.takes + [u])
  {
    assert Elements([u]) == {u};
  }

  lemma RescanIs<B(!new)>(s: Fibers<B>, b: B, found: seq<B>, cursor: nat)
    requires b in s.f.g && (s.f.g[b].up.Some? ==> s.f.g[b].up.value in s.f.g) && s.f.cursor <= |s.f.list|
    requires Release(s.f.g, b).1.None? && s.f.count != 1
    requires (found, cursor) == Scan(Release(s.f.g, b).0, s.f.id, s.f.list, s.f.cursor, 1)
    ensures FinishStep(s, b) ==
            Chosen(s.(running := s.running - multiset{b}), Released(s.f, b).(cursor := cursor), found)
  {
    if found != [] {
      assert found == [found[0]];
    }
  }

  /** After a completion that did not release the buffer above, before its scan. */
  lemma RescanStart<B(!new)>(s: Fibers<B>, b: B)
    requires Inv(s) && b in s.f.writing && s.f.cursor <= |s.f.list|
    requires b in s.f.g && (s.f.g[b].up.Some? ==> s.f.g[b].up.value in s.f.g)
    requires Release(s.f.g, b).1.None?
    ensures var r := Released(s.f, b);
            && BufsInv(r, s.follow) && LogInv(r.log, r.done, r.writing, r.orig, Ahead(r.list, 0))
            && b !in s.f.picked && s.f.done <= Ahead(r.list, 0) && b in Ahead(r.list, 0) && b !in s.f.done
            && Scan(Release(s.f.g, b).0, r.id, r.list, r.cursor, 1) == Scan(r.g, r.id, r.list, r.cursor, 1)
            && (Reaches(s.f, s.follow, 1) <==> Reaches(r, s.follow, 1))
  {
    hide BufInv, LogInv, UpInv, Distinct, CountInv, Scan, Reaches;
    var f, dom, r := s.f, Ahead(s.f.list, 0), Released(s.f, b);
    var ahead := Ahead(f.list, f.cursor) - s.follow;
    FinishDefined(f, dom, ahead, b);
    DoneInList(f, dom, ahead);
    Readiness(f, s.follow);
    ReleasedEffect(f, b);
    ReleaseBufs(f, r, dom, ahead, b);
    FinishKeepsLog(f, r, dom, b);
    ReadinessKept(f, r, dom, ahead, b);
    ReachesSame(f, r, s.follow, 1);
    ScanSame(Release(f.g, b).0, r.g, f.id, f.list, f.cursor, 1);
  }

  lemma RescanKeeps<B(!new)>(s: Fibers<B>, b: B)
    requires Inv(s) && b in s.f.writing && s.f.cursor <= |s.f.list| && s.f.count != 1
    requires b in s.f.g && (s.f.g[b].up.Some? ==> s.f.g[b].up.value in s.f.g)
    requires Release(s.f.g, b).1.None?
    ensures Distinct(FinishStep(s, b).takes) <==> !Reaches(s.f, s.follow, 1)
    ensures !Reaches(s.f, s.follow, 1) ==> Inv(FinishStep(s, b))
  {
    hide GraphInv, BufsInv, LogInv, Distinct, Scan, Reaches, FinishStep, Bag, Released;
    RescanStart(s, b);
    var r := Released(s.f, b);
    var (found, cursor) := Scan(r.g, r.id, r.list, r.cursor, 1);
    ReleasedSets(s.f, b);
    RescanIs(s, b, found, cursor);
    ScanTwice(s.(f := r), found, cursor, 1);
    if !Reaches(s.f, s.follow, 1) {
      RescanGraph(s, b, found, cursor);
      DistinctConcat(s.takes, found);
      BagGrows(s.chosen, s.f.picked, found);
      BagLoses(s.running, s.f.writing, b);
    }
  }

  lemma ReleasedSets<B(!new)>(f: Flush<B>, b: B)
    requires b in f.g && (f.g[b].up.Some? ==> f.g[b].up.value in f.g)
    ensures var r := Released(f, b);
            && r.picked == f.picked && r.writing == f.writing - {b} && r.done == f.done + {b}
            && r.id == f.id && r.list == f.list && r.cursor == f.cursor
  {
    hide Release;
  }

  lemma RescanGraph<B(!new)>(s: Fibers<B>, b: B, found: seq<B>, cursor: nat)
    requires Inv(s) && b in s.f.writing && s.f.cursor <= |s.f.list| && s.f.count != 1
    requires b in s.f.g && (s.f.g[b].up.Some? ==> s.f.g[b].up.value in s.f.g)
    requires Release(s.f.g, b).1.None? && !Reaches(s.f, s.follow, 1)
    requires var r := Released(s.f, b);
             r.cursor <= |r.list| && (found, cursor) == Scan(r.g, r.id, r.list, r.cursor, 1)
    ensures var r := Released(s.f, b);
            GraphInv(r.(cursor := cursor, picked := r.picked + Elements(found)), s.follow)
  {
    hide BufInv, LogInv, UpInv, Distinct, Scan, Reaches, Bag;
    RescanStart(s, b);
    var r := Released(s.f, b);
    ScanKeeps(r, s.follow, found, cursor, 1);
    var t := r.(cursor := cursor, picked := r.picked + Elements(found));
    if found != [] {
      assert found[0] in t.picked;
    }
    CountAfter(s.f, t, Ahead(r.list, 0), b);
  }

  lemma BagLoses<B(!new)>(bag: multiset<B>, elements: set<B>, b: B)
    requires Bag(bag, elements) && b in elements
    ensures Bag(bag - multiset{b}, elements - {b})
  {
  }

  lemma OutsideKeeps<B(!new)>(s: Fibers<B>, g: Graph<B>)
    requires Inv(s) && FlushGraph.Enabled(s.f, Outside(g))
    ensures Inv(s.(f := s.f.(g := g)))
  {
    var f := s.f;
    var dom, ahead, t := Ahead(f.list, 0), Ahead(f.list, f.cursor) - s.follow, f.(g := g);
    AheadMembers(f.list, 0);
    assert f.list[0..] == f.list;
    assert forall b :: b in dom ==> b in f.list;
    assert Stages(t, dom, ahead) && Fields(t, dom) && Counts(t, dom, ahead);
    assert LogInv(t.log, t.done, t.writing, t.orig, dom);
    assert CountInv(t, dom);
  }

  lemma FinishKeeps<B(!new)>(s: Fibers<B>, b: B)
    requires Inv(s) && Enabled(s, Finish(b))
    ensures Distinct(FinishStep(s, b).takes) <==> !InWindow(s, Finish(b))
    ensures !InWindow(s, Finish(b)) ==> Inv(FinishStep(s, b))
  {
    hide GraphInv, Distinct, Reaches, FinishStep, Release;
    assert b in s.f.writing;
    ReleasesWhen(s.f.g, b);
    if s.f.count == 1 {
      LastKeeps(s, b);
    } else if Release(s.f.g, b).1.Some? {
      FollowKeeps(s, b);
    } else {
      RescanKeeps(s, b);
    }
  }

  lemma ReleasesWhen<B(!new)>(g: Graph<B>, b: B)
    requires b in g && (g[b].up.Some? ==> g[b].up.value in g)
    ensures Release(g, b).1.Some? <==> ReleasesUp(g, b)
  {
  }

  /** One step chooses a buffer a second time if and only if it is in the window; otherwise it keeps the
      invariant. */
  lemma StepKeeps<B(!new)>(s: Fibers<B>, step: Step<B>)
    requires Inv(s)
    ensures Distinct(Apply(s, step).takes) <==> !InWindow(s, step)
    ensures !InWindow(s, step) ==> Inv(Apply(s, step))
  {
    hide GraphInv, Distinct, Reaches, FinishStep, FetchStep, BeginStep, FlushGraph.Enabled;
    if Enabled(s, step) {
      match step
      case Fetch(room) => FetchKeeps(s, room);
      case Begin(b) =>
        BeginKeeps(s, b);
        BeginTakes(s, b);
      case Finish(b) => FinishKeeps(s, b);
      case Outside(g) => OutsideKeeps(s, g);
    }
  }

  lemma BeginTakes<B(!new)>(s: Fibers<B>, b: B)
    requires b in s.f.g
    ensures BeginStep(s, b).takes == s.takes
  {
  }

  // ---------- whole runs ----------

  /** No scan of the run reaches a buffer that is chosen but not marked. */
  ghost predicate NoWindow<B(!new)>(s: Fibers<B>, steps: seq<Step<B>>) {
    forall k :: 0 <= k < |steps| ==> !InWindow(Exec(s, steps[..k]), steps[k])
  }

  lemma NoWindowStep<B(!new)>(s: Fibers<B>, steps: seq<Step<B>>)
    requires steps != []
    ensures var n := |steps| - 1;
            NoWindow(s, steps) <==> NoWindow(s, steps[..n]) && !InWindow(Exec(s, steps[..n]), steps[n])
  {
    hide InWindow, Exec;
    var n := |steps| - 1;
    var before := steps[..n];
    assert forall k :: 0 <= k < n ==> before[..k] == steps[..k] && before[k] == steps[k];
  }

  /** Choices are never taken back. */
  lemma TakesKept<B(!new)>(s: Fibers<B>, step: Step<B>)
    ensures Distinct(Apply(s, step).takes) ==> Distinct(s.takes)
  {
    var t := Apply(s, step);
    assert |s.takes| <= |t.takes| && t.takes[..|s.takes|] == s.takes;
  }

  lemma {:induction false} RunKeeps<B(!new)>(s: Fibers<B>, steps: seq<Step<B>>)
    requires Inv(s)
    ensures var t := Exec(s, steps);
            (Distinct(t.takes) <==> NoWindow(s, steps)) && (NoWindow(s, steps) ==> Inv(t))
  {
    hide GraphInv, Distinct, InWindow, Apply;
    if steps != [] {
      var n := |steps| - 1;
      RunKeeps(s, steps[..n]);
      NoWindowStep(s, steps);
      TakesKept(Exec(s, steps[..n]), steps[n]);
      if NoWindow(s, steps[..n]) {
        StepKeeps(Exec(s, steps[..n]), steps[n]);
      }
    }
  }

  /** How often a buffer was written. */
  ghost function Writes<B(!new)>(log: seq<Event<B>>, b: B): nat {
    multiset(log)[Started(b)]
  }

  /** Every choice leads to one write. */
  ghost predicate Accounted<B(!new)>(s: Fibers<B>) {
    forall b :: multiset(s.takes)[b] == Writes(s.f.log, b) + s.chosen[b]
  }

  /** A choice and a completion add to both sides alike. */
  lemma ChoiceAccounts<B(!new)>(s: Fibers<B>, t: Fibers<B>, found: seq<B>)
    requires Accounted(s) && t.takes == s.takes + found && t.chosen == s.chosen + multiset(found)
    requires t.f.log == s.f.log || exists b :: t.f.log == s.f.log + [Finished(b)]
    ensures Accounted(t)
  {
  }

  lemma BeginAccounts<B(!new)>(s: Fibers<B>, t: Fibers<B>, b: B)
    requires Accounted(s) && t.takes == s.takes && b in s.chosen && t.chosen == s.chosen - multiset{b}
    requires t.f.log == s.f.log + [Started(b)]
    ensures Accounted(t)
  {
  }

  lemma StepAccounts<B(!new)>(s: Fibers<B>, step: Step<B>)
    requires Accounted(s)
    ensures Accounted(Apply(s, step))
  {
    hide Scan, Release, Accounted;
    var t := Apply(s, step);
    if Enabled(s, step) {
      match step
      case Fetch(room) =>
        ChoiceAccounts(s, t, Scan(s.f.g, s.f.id, s.f.list, s.f.cursor, room).0);
      case Begin(b) => BeginAccounts(s, t, b);
      case Finish(b) =>
        var next := Complete(s.f, b).1;
        assert t.f.log == s.f.log + [Finished(b)];
        ChoiceAccounts(s, t, if next.Some? then [next.value] else []);
      case Outside(_) =>
        assert s.takes + [] == s.takes;
        ChoiceAccounts(s, t, []);
    }
  }

  lemma {:induction false} RunAccounts<B(!new)>(s: Fibers<B>, steps: seq<Step<B>>)
    requires Accounted(s)
    ensures Accounted(Exec(s, steps))
  {
    hide Accounted, Apply;
    if steps != [] {
      RunAccounts(s, steps[..|steps| - 1]);
      StepAccounts(Exec(s, steps[..|steps| - 1]), steps[|steps| - 1]);
    }
  }

  lemma DistinctCounts<B(!new)>(takes: seq<B>)
    ensures Distinct(takes) <==> forall b :: multiset(takes)[b] <= 1
  {
    if Distinct(takes) {
      forall b
        ensures multiset(takes)[b] <= 1
      {
        CountOnce(takes, b);
      }
    } else {
      var i, j :| 0 <= i < j < |takes| && takes[i] == takes[j];
      assert takes == takes[..j] + [takes[j]] + takes[j + 1..];
      assert takes[i] in takes[..j];
      assert multiset(takes)[takes[j]] >= 2;
    }
  }

  lemma BegunInv<B(!new)>(f: Flush<B>)
    requires Initial(f)
    ensures Inv(Begun(f)) && Accounted(Begun(f))
  {
    InitialInv(f);
    assert Ahead(f.list, f.cursor) - {} == Ahead(f.list, f.cursor);
  }

  ghost predicate LinkedTo<B(!new)>(g: Graph<B>, b: B, u: B) {
    b in g && g[b].up == Some(u)
  }

  lemma InvMeans<B(!new)>(t: Fibers<B>)
    requires Inv(t)
    ensures var list, log := t.f.list, t.f.log;
            && Distinct(log)
            && (forall b :: Finished(b) in log ==> Started(b) in log && b in list)
            && (forall k, b :: 0 <= k < |log| && log[k].Started? && b in list && LinkedTo(t.f.orig, b, log[k].buf)
                  ==> Finished(b) in log[..k])
            && t.f.noMore == (if t.f.count == 0 then 1 else 0)
            && (t.f.noMore == 1 <==> forall b :: b in list ==> Finished(b) in log)
  {
    hide BufInv, InOrder, UpInv, Bag, TakesInv;
    var dom := Ahead(t.f.list, 0);
    DomIsList(t.f);
    DoneInList(t.f, dom, Ahead(t.f.list, t.f.cursor) - t.follow);
    SubsetSize(t.f.done, dom);
    OrderMeans(t.f.log, t.f.orig, dom);
  }

  lemma CompleteFrame<B(!new)>(f: Flush<B>, b: B)
    requires b in f.g && (f.g[b].up.Some? ==> f.g[b].up.value in f.g) && f.cursor <= |f.list|
    ensures var t := Complete(f, b).0; t.list == f.list && t.orig == f.orig && t.id == f.id
  {
    hide Scan, Release;
  }

  lemma StepFrame<B(!new)>(s: Fibers<B>, step: Step<B>)
    ensures Apply(s, step).f.list == s.f.list && Apply(s, step).f.orig == s.f.orig
  {
    hide Scan, Complete, Follows, FlushGraph.Enabled;
    if step.Finish? && Enabled(s, step) {
      CompleteFrame(s.f, step.b);
    }
  }

  lemma {:induction false} RunFrame<B(!new)>(s: Fibers<B>, steps: seq<Step<B>>)
    ensures Exec(s, steps).f.list == s.f.list && Exec(s, steps).f.orig == s.f.orig
  {
    hide Apply;
    if steps != [] {
      RunFrame(s, steps[..|steps| - 1]);
      StepFrame(Exec(s, steps[..|steps| - 1]), steps[|steps| - 1]);
    }
  }

  /** A flush by several fibers. Every choice is written once, so no buffer is or will be written twice
      if and only if no scan of the run reached a buffer that was chosen but not marked. In that case the
      order of writes, the single write and the single report are those of a flush by one fiber. */
  lemma FibersRun<B(!new)>(f: Flush<B>, steps: seq<Step<B>>)
    requires Initial(f)
    ensures var t := Exec(Begun(f), steps);
            (forall b :: Writes(t.f.log, b) + t.chosen[b] <= 1) <==> NoWindow(Begun(f), steps)
    ensures NoWindow(Begun(f), steps) ==>
              var t := Exec(Begun(f), steps).f;
              && Distinct(t.log)
              && (forall b :: Finished(b) in t.log ==> Started(b) in t.log && b in f.list)
              && (forall k, b :: 0 <= k < |t.log| && t.log[k].Started? && b in f.list
                                 && LinkedTo(f.orig, b, t.log[k].buf)
                    ==> Finished(b) in t.log[..k])
              && t.noMore == (if t.count == 0 then 1 else 0)
              && (t.noMore == 1 <==> forall b :: b in f.list ==> Finished(b) in t.log)
  {
    hide GraphInv, Distinct, NoWindow, Writes, Exec;
    BegunInv(f);
    RunKeeps(Begun(f), steps);
    RunAccounts(Begun(f), steps);
    RunFrame(Begun(f), steps);
    var t := Exec(Begun(f), steps);
    DistinctCounts(t.takes);
    if NoWindow(Begun(f), steps) {
      InvMeans(t);
    }
  }

  lemma SomeChosen<B(!new)>(t: Fibers<B>, rank: map<B, nat>)
    requires Inv(t) && Ranked(t.f.orig, t.f.list, rank) && t.f.cursor > 0 && t.f.noMore == 0
    ensures t.f.picked + t.f.writing != {}
  {
    hide Fields, Counts, LogInv, Bag, TakesInv;
    if t.f.picked + t.f.writing == {} {
      var dom := Ahead(t.f.list, 0);
      DomIsList(t.f);
      SubsetSize(t.f.done, dom);
      assert t.follow == {} && t.f.cursor == |t.f.list|;
      assert Ahead(t.f.list, t.f.cursor) - t.follow == {};
      assert dom - t.f.done != {};
      var b :| b in dom - t.f.done;
      Descend(t.f, dom, rank, t.f.list, b);
    }
  }

  lemma InHandEnabled<B(!new)>(t: Fibers<B>, b: B)
    requires Inv(t) && b in t.f.picked + t.f.writing
    ensures Enabled(t, Begin(b)) || Enabled(t, Finish(b))
  {
    hide LogInv, Counts, TakesInv;
    var dom := Ahead(t.f.list, 0);
    if b in t.f.writing {
      FinishDefined(t.f, dom, Ahead(t.f.list, t.f.cursor) - t.follow, b);
      assert Enabled(t, Finish(b));
    } else {
      assert Enabled(t, Begin(b));
    }
  }

  /** A run that keeps clear of the window never stalls: once something was fetched and until "no more" is
      reported, some buffer can be marked or some write can complete. */
  lemma FibersNeverStall<B(!new)>(f: Flush<B>, steps: seq<Step<B>>, rank: map<B, nat>)
    requires Initial(f) && Ranked(f.orig, f.list, rank) && NoWindow(Begun(f), steps)
    requires Exec(Begun(f), steps).f.cursor > 0 && Exec(Begun(f), steps).f.noMore == 0
    ensures var t := Exec(Begun(f), steps); exists b :: Enabled(t, Begin(b)) || Enabled(t, Finish(b))
  {
    hide Inv, Ranked, Exec, NoWindow, Enabled;
    BegunInv(f);
    RunKeeps(Begun(f), steps);
    RunFrame(Begun(f), steps);
    var t := Exec(Begun(f), steps);
    SomeChosen(t, rank);
    var b :| b in t.f.picked + t.f.writing;
    InHandEnabled(t, b);
  }

  lemma FibersRemaining<B(!new)>(s: Fibers<B>)
    requires Inv(s)
    ensures Remaining(s.f) >= 0
  {
    hide LogInv, Counts, Fields, Bag, TakesInv;
    var dom := Ahead(s.f.list, 0);
    SubsetSize(s.f.done + s.f.writing, dom);
    assert |s.f.done + s.f.writing| == |s.f.done| + |s.f.writing|;
  }

  lemma FinishCounts<B(!new)>(s: Fibers<B>, b: B)
    requires b in s.f.g && (s.f.g[b].up.Some? ==> s.f.g[b].up.value in s.f.g) && s.f.cursor <= |s.f.list|
    requires b in s.f.writing && b !in s.f.done
    ensures Remaining(FinishStep(s, b).f) == Remaining(s.f) - 1
  {
    hide Scan, Release, Follows;
    var t := FinishStep(s, b).f;
    assert t.done == s.f.done + {b} && t.writing == s.f.writing - {b} && t.list == s.f.list;
  }

  lemma BeginCounts<B(!new)>(s: Fibers<B>, b: B)
    requires b in s.f.g && b !in s.f.writing
    ensures Remaining(BeginStep(s, b).f) == Remaining(s.f) - 1
  {
  }

  /** Such a run ends: each mark and each completion brings the flush closer to "no more". */
  lemma FibersProgress<B(!new)>(s: Fibers<B>, step: Step<B>)
    requires Inv(s) && Enabled(s, step) && !InWindow(s, step)
    ensures 0 <= Remaining(Apply(s, step).f) <= Remaining(s.f)
    ensures step.Begin? || step.Finish? ==> Remaining(Apply(s, step).f) < Remaining(s.f)
  {
    hide Inv, InWindow, Remaining, FinishStep, BeginStep, FlushGraph.Enabled;
    StepKeeps(s, step);
    FibersRemaining(Apply(s, step));
    match step
    case Fetch(room) => FetchCounts(s, room);
    case Begin(b) =>
      InHand(s, b);
      BeginCounts(s, b);
    case Finish(b) =>
      InHand(s, b);
      FinishCounts(s, b);
    case Outside(g) => OutsideCounts(s.f, g);
  }

  lemma InHand<B(!new)>(s: Fibers<B>, b: B)
    requires Inv(s)
    ensures b in s.chosen ==> b !in s.f.writing
    ensures b in s.running ==> b in s.f.writing && b !in s.f.done
  {
    hide LogInv, Counts, Fields, TakesInv;
  }

  lemma FetchCounts<B(!new)>(s: Fibers<B>, room: nat)
    requires s.f.cursor <= |s.f.list|
    ensures Remaining(FetchStep(s, room).f) == Remaining(s.f)
  {
    hide Scan;
  }

  lemma OutsideCounts<B(!new)>(f: Flush<B>, g: Graph<B>)
    ensures Remaining(f.(g := g)) == Remaining(f)
  {
  }

  // ---------- a run in which it happens ----------

  /** A flush of two buffers, the first linked below the second. */
  ghost function Pair(): Flush<int> {
    var g := map[1 := Buf(Some(2), 0, Dirty, 7, 0, false), 2 := Buf(None, 1, Dirty, 7, 0, false)];
    Flush(7, g, g, [1, 2], 0, 2, {}, {}, {}, [], 0)
  }

  lemma PairInitial()
    ensures Initial(Pair())
  {
    var s := Pair();
    assert Below(s.g, (set b | b in s.list), 1) == {};
    assert Below(s.g, (set b | b in s.list), 2) == {1};
  }

  lemma ScanOne(g: Graph<int>, id: int, list: seq<int>, cursor: nat)
    requires cursor < |list| && Ready(g, id, list[cursor])
    ensures Scan(g, id, list, cursor, 1) == ([list[cursor]], cursor + 1)
  {
    assert Scan(g, id, list, cursor + 1, 0) == ([], cursor + 1);
    assert [list[cursor]] + [] == [list[cursor]];
  }

  /** One fiber writes the first buffer, and its completion chooses the second. Before that is marked, the
      other fiber fetches it from the list. */
  ghost function Race(): seq<Step<int>> {
    [Fetch(1), Begin(1), Finish(1), Fetch(1), Begin(2), Begin(2)]
  }

  /** After the first completion: the second buffer is chosen, not marked and still ahead. */
  ghost predicate Chosen2(s: Fibers<int>) {
    && s.chosen == multiset{2} && s.f.log == [Started(1), Finished(1)]
    && s.f.cursor == 1 && s.f.list == [1, 2] && s.f.id == 7
    && 2 in s.f.g && s.f.g[2] == Buf(None, 0, Dirty, 7, 0, false)
  }

  lemma FirstFetch()
    ensures Apply(Begun(Pair()), Fetch(1)) ==
            Fibers(Pair().(cursor := 1, picked := {1}), multiset{1}, multiset{}, {}, [1])
  {
    var f := Pair();
    ScanOne(f.g, 7, f.list, 0);
    assert Elements([1]) == {1} && f.picked + {1} == {1};
  }

  lemma FirstBegin()
    ensures var s := Apply(Apply(Begun(Pair()), Fetch(1)), Begin(1));
            && s.chosen == multiset{} && s.running == multiset{1} && s.f.log == [Started(1)] && s.f.count == 2
            && s.f.cursor == 1 && s.f.list == [1, 2] && s.f.id == 7
            && s.f.g == map[1 := Buf(Some(2), 0, Flushing, 7, 0, false), 2 := Buf(None, 1, Dirty, 7, 0, false)]
  {
    FirstFetch();
  }

  lemma PairCompletes(f: Flush<int>)
    requires f.g == map[1 := Buf(Some(2), 0, Flushing, 7, 0, false), 2 := Buf(None, 1, Dirty, 7, 0, false)]
    requires f.count == 2 && f.cursor <= |f.list|
    ensures var (t, next) := Complete(f, 1);
            && next == Some(2) && t.log == f.log + [Finished(1)] && t.cursor == f.cursor
            && 2 in t.g && t.g[2] == Buf(None, 0, Dirty, 7, 0, false)
  {
  }

  lemma FirstWrite()
    ensures Chosen2(Apply(Apply(Apply(Begun(Pair()), Fetch(1)), Begin(1)), Finish(1)))
  {
    hide Scan, Pair, Begun, Complete, Follows, FetchStep, BeginStep;
    FirstBegin();
    var s := Apply(Apply(Begun(Pair()), Fetch(1)), Begin(1));
    PairCompletes(s.f);
    CompleteFrame(s.f, 1);
    assert Apply(s, Finish(1)) == FinishStep(s, 1);
  }

  lemma SecondFetch(s: Fibers<int>)
    requires Chosen2(s)
    ensures var t := Apply(s, Fetch(1)); t.chosen == multiset{2, 2} && t.f.log == s.f.log && 2 in t.f.g
  {
    ScanOne(s.f.g, 7, s.f.list, 1);
  }

  lemma BeginOne(t: Fibers<int>)
    requires 2 in t.chosen && 2 in t.f.g
    ensures var u := Apply(t, Begin(2));
            2 in u.f.g && u.chosen == t.chosen - multiset{2} && u.f.log == t.f.log + [Started(2)]
  {
  }

  lemma SecondWrites(t: Fibers<int>)
    requires t.chosen == multiset{2, 2} && t.f.log == [Started(1), Finished(1)] && 2 in t.f.g
    ensures Writes(Apply(Apply(t, Begin(2)), Begin(2)).f.log, 2) == 2
  {
    hide Apply;
    BeginOne(t);
    BeginOne(Apply(t, Begin(2)));
    assert Writes(t.f.log, 2) == 0;
  }

  lemma ExecOne(s: Fibers<int>, steps: seq<Step<int>>, step: Step<int>)
    ensures Exec(s, steps + [step]) == Apply(Exec(s, steps), step)
  {
    assert (steps + [step])[..|steps|] == steps;
  }

  lemma RaceUnfolds(s: Fibers<int>)
    ensures Exec(s, Race()) ==
            Apply(Apply(Apply(Apply(Apply(Apply(s, Fetch(1)), Begin(1)), Finish(1)), Fetch(1)), Begin(2)), Begin(2))
  {
    hide Apply;
    var none: seq<Step<int>> := [];
    var a := none + [Fetch(1)];
    var b := a + [Begin(1)];
    var c := b + [Finish(1)];
    var d := c + [Fetch(1)];
    var e := d + [Begin(2)];
    assert e + [Begin(2)] == Race();
    assert Exec(s, none) == s;
    ExecOne(s, none, Fetch(1));
    ExecOne(s, a, Begin(1));
    ExecOne(s, b, Finish(1));
    ExecOne(s, c, Fetch(1));
    ExecOne(s, d, Begin(2));
    ExecOne(s, e, Begin(2));
  }

  /** Then the second buffer is written twice. */
  lemma WrittenTwice()
    ensures Initial(Pair()) && Writes(Exec(Begun(Pair()), Race()).f.log, 2) == 2
  {
    hide Initial, Exec, Apply, Race, Pair, Begun;
    PairInitial();
    FirstWrite();
    var s := Apply(Apply(Apply(Begun(Pair()), Fetch(1)), Begin(1)), Finish(1));
    SecondFetch(s);
    SecondWrites(Apply(s, Fetch(1)));
    RaceUnfolds(Begun(Pair()));
  }
}
