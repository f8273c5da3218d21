/**
 The flush of one checkpoint by the index write-back cache.

 Dirty index buffers carry an `up` link and a count of the buffers linked below them that are
 still to be written. The flush scans the dirty list for buffers whose count is zero, writes
 them, and every completion releases one count of the buffer above.

 `get_next_bufs_internal` and `on_buf_flush_done_internal` are the functions `Scan` and
 `Complete` below. Completions arrive in any order, so a flush is a run of steps; the next
 checkpoint may meanwhile change every buffer that this flush has finished with.
 */
module FlushGraph {

  import opened Options
  import opened Sequences

  datatype BufState = Clean | Dirty | Flushing

  /** The fields of an IndexBuffer that the flush protocol reads or writes. */
  datatype Buf<B> = Buf(
    up: Option<B>,
    wait: int,
    state: BufState,
    dirtiedCp: int,
    createdCp: int,
    freed: bool)

  type Graph<B> = map<B, Buf<B>>

  datatype Event<B> = Started(buf: B) | Finished(buf: B)

  /** Flush context of checkpoint `id`. `orig` (the graph when the flush began), `writing`, `done`,
      `log` and `noMore` record history and are read by no step. */
  datatype Flush<!B> = Flush(
    id: int,
    orig: Graph<B>,
    g: Graph<B>,
    list: seq<B>,
    cursor: nat,
    count: int,
    picked: set<B>,
    writing: set<B>,
    done: set<B>,
    log: seq<Event<B>>,
    noMore: nat)

  // ---------- the operations of the flush ----------

  predicate Ready<B(==)>(g: Graph<B>, id: int, b: B) {
    b in g && g[b].state == Dirty && g[b].dirtiedCp == id && g[b].wait == 0
  }

  /** The loop of get_next_bufs_internal: walk the dirty list, take at most `room` ready buffers.
      Returns what was taken and the new list position. */
  function Scan<B(==)>(g: Graph<B>, id: int, list: seq<B>, cursor: nat, room: nat): (r: (seq<B>, nat))
    requires cursor <= |list|
    ensures cursor <= r.1 <= |list|
    ensures |r.0| <= room
    ensures |r.0| < room ==> r.1 == |list|
    ensures room > 0 && cursor < |list| ==> r.1 > cursor
    decreases |list| - cursor
  {
    if room == 0 || cursor == |list| then ([], cursor)
    else if Ready(g, id, list[cursor]) then
      var rest := Scan(g, id, list, cursor + 1, room - 1);
      ([list[cursor]] + rest.0, rest.1)
    else Scan(g, id, list, cursor + 1, room)
  }

  /** The first half of get_next_bufs_internal: release one count of the buffer above the one just
      written, take it if that was the last count, and drop the link. */
  function Release<B(==)>(g: Graph<B>, b: B): (r: (Graph<B>, Option<B>))
    requires b in g
    requires g[b].up.Some? ==> g[b].up.value in g
  {
    if g[b].up == None then (g, None)
    else
      var u := g[b].up.value;
      var g1 := g[u := g[u].(wait := g[u].wait - 1)];
      (g1[b := g1[b].(up := None)], if g1[u].wait == 0 then Some(u) else None)
  }

  /** on_buf_flush_done_internal: what the completion of `b` makes of the flush, and the buffer to
      write next, if any. The last completion reports that there is no more. */
  function Complete<B(==)>(s: Flush<B>, b: B): (r: (Flush<B>, Option<B>))
    requires b in s.g
    requires s.g[b].up.Some? ==> s.g[b].up.value in s.g
    requires s.cursor <= |s.list|
  {
    var t := s.(count := s.count - 1, writing := s.writing - {b}, done := s.done + {b},
                log := s.log + [Finished(b)]);
    if t.count == 0 then
      (t.(g := s.g[b := s.g[b].(state := Clean)], noMore := s.noMore + 1), None)
    else
      var (g1, next) := Release(s.g, b);
      if next.Some? then
        (t.(g := g1[b := g1[b].(state := Clean)]), next)
      else
        var (found, cursor) := Scan(g1, s.id, s.list, s.cursor, 1);
        (t.(g := g1[b := g1[b].(state := Clean)], cursor := cursor),
         if found == [] then None else Some(found[0]))
  }

  /** do_flush_one_buf up to the start of the write. */
  function Start<B(==)>(s: Flush<B>, b: B): Flush<B>
    requires b in s.g
  {
    s.(g := s.g[b := s.g[b].(state := Flushing)], picked := s.picked - {b},
       writing := s.writing + {b}, log := s.log + [Started(b)])
  }

  // ---------- the invariant ----------

  /** The buffers listed at position `cursor` or later. */
  ghost function Ahead<B>(list: seq<B>, cursor: nat): set<B>
    requires cursor <= |list|
    decreases |list| - cursor
  {
    if cursor == |list| then {} else {list[cursor]} + Ahead(list, cursor + 1)
  }

  /** The buffers of `active` linked to `u`. */
  ghost function Below<B(!new)>(orig: Graph<B>, active: set<B>, u: B): set<B> {
    set b | b in active && b in orig && orig[b].up == Some(u)
  }

  /** `dom`: the buffers of this flush; `ahead`: those the scan has not passed yet. */
  ghost predicate BufInv<B(!new)>(s: Flush<B>, dom: set<B>, ahead: set<B>) {
    Stages(s, dom, ahead) && Fields(s, dom) && Counts(s, dom, ahead)
  }

  /** A buffer is waiting, then picked, then being written, then done. */
  ghost predicate Stages<B(!new)>(s: Flush<B>, dom: set<B>, ahead: set<B>) {
    && (forall b :: b in dom ==> b in s.g && b in s.orig)
    && s.picked <= dom && s.writing <= dom && s.done <= dom && ahead <= dom
    && s.picked !! s.writing !! s.done
    && s.picked !! ahead
  }

  ghost predicate Fields<B(!new)>(s: Flush<B>, dom: set<B>)
    requires forall b :: b in dom ==> b in s.g && b in s.orig
  {
    && (forall b :: b in dom - s.done ==>
          && s.g[b].state == (if b in s.writing then Flushing else Dirty)
          && s.g[b].dirtiedCp == s.id
          && s.g[b].up == s.orig[b].up
          && (s.orig[b].up.Some? ==> s.orig[b].up.value !in s.done))
    && (forall b :: b in dom * s.done ==> !(s.g[b].state == Dirty && s.g[b].dirtiedCp == s.id))
  }

  /** Counts are right; what was taken has none left, what the scan passed over still has some. */
  ghost predicate Counts<B(!new)>(s: Flush<B>, dom: set<B>, ahead: set<B>)
    requires forall b :: b in dom ==> b in s.g && b in s.orig
  {
    && (forall b :: b in dom - s.done ==> s.g[b].wait == |Below(s.orig, dom - s.done, b)|)
    && (forall b :: b in dom * (s.picked + s.writing) ==> s.g[b].wait == 0)
    && (forall b :: b in dom - ahead - s.picked - s.writing - s.done ==> s.g[b].wait > 0)
  }

  ghost predicate UpInv<B(!new)>(orig: Graph<B>, dom: set<B>) {
    forall b :: b in dom ==> b in orig && (orig[b].up.Some? ==> orig[b].up.value in dom)
  }

  /** A buffer is started only after all buffers linked below it are finished, and finished only
      after it is started. */
  ghost predicate InOrder<B(!new)>(log: seq<Event<B>>, orig: Graph<B>, dom: set<B>) {
    forall k :: 0 <= k < |log| ==>
      match log[k]
      case Started(u) => u in dom && forall b :: b in Below(orig, dom, u) ==> Finished(b) in log[..k]
      case Finished(b) => b in dom && Started(b) in log[..k]
  }

  ghost predicate LogInv<B(!new)>(log: seq<Event<B>>, done: set<B>, writing: set<B>, orig: Graph<B>, dom: set<B>) {
    && Distinct(log)
    && (forall b :: Finished(b) in log <==> b in done)
    && (forall b :: Started(b) in log <==> b in done + writing)
    && InOrder(log, orig, dom)
  }

  ghost predicate CountInv<B(!new)>(s: Flush<B>, dom: set<B>) {
    && s.cursor <= |s.list| == |dom|
    && s.count == |dom| - |s.done|
    && s.noMore == (if s.count == 0 then 1 else 0)
    && (s.cursor == 0 ==> s.picked == s.writing == s.done == {})
    && (s.count > 0 && 0 < s.cursor < |s.list| ==> s.picked + s.writing != {})
  }

  ghost predicate Inv<B(!new)>(s: Flush<B>) {
    && s.cursor <= |s.list| && s.list != [] && Distinct(s.list)
    && var dom := Ahead(s.list, 0);
    && UpInv(s.orig, dom)
    && BufInv(s, dom, Ahead(s.list, s.cursor))
    && LogInv(s.log, s.done, s.writing, s.orig, dom)
    && CountInv(s, dom)
  }

  // ---------- facts about the list and the scan ----------

  lemma AheadMembers<B>(list: seq<B>, cursor: nat)
    requires cursor <= |list|
    ensures forall b :: b in Ahead(list, cursor) <==> b in list[cursor..]
    ensures Ahead(list, cursor) <= Ahead(list, 0)
    decreases |list| - cursor
  {
    if cursor < |list| {
      AheadMembers(list, cursor + 1);
      assert list[cursor..] == [list[cursor]] + list[cursor + 1..];
    }
    AheadInDom(list, cursor);
  }

  lemma AheadInDom<B>(list: seq<B>, cursor: nat)
    requires cursor <= |list|
    ensures Ahead(list, cursor) <= Ahead(list, 0)
  {
    if cursor > 0 {
      AheadInDom(list, cursor - 1);
    }
  }

  lemma AheadSize<B>(list: seq<B>, cursor: nat)
    requires cursor <= |list| && Distinct(list)
    ensures |Ahead(list, cursor)| == |list| - cursor
    decreases |list| - cursor
  {
    if cursor < |list| {
      AheadSize(list, cursor + 1);
      AheadMembers(list, cursor + 1);
    }
  }

  /** What a scan takes and what it leaves, in terms of sets. */
  lemma ScanSets<B>(g: Graph<B>, id: int, list: seq<B>, cursor: nat, room: nat)
    requires cursor <= |list| && Distinct(list)
    ensures var (found, next) := Scan(g, id, list, cursor, room);
            var taken := set b | b in found;
            && Ahead(list, next) <= Ahead(list, cursor)
            && taken <= Ahead(list, cursor)
            && taken !! Ahead(list, next)
            && (forall b :: b in taken ==> Ready(g, id, b))
            && (forall b :: b in Ahead(list, cursor) - Ahead(list, next) && Ready(g, id, b) ==> b in taken)
    decreases |list| - cursor
  {
    if room > 0 && cursor < |list| {
      AheadMembers(list, cursor + 1);
      if Ready(g, id, list[cursor]) {
        ScanSets(g, id, list, cursor + 1, room - 1);
      } else {
        ScanSets(g, id, list, cursor + 1, room);
      }
    }
  }

  /** How many buffers of a list are ready. */
  function ReadyIn<B(==)>(g: Graph<B>, id: int, list: seq<B>): nat {
    if list == [] then 0 else (if Ready(g, id, list[0]) then 1 else 0) + ReadyIn(g, id, list[1..])
  }

  /** A scan takes a ready buffer if and only if it lies ahead and the ready buffers before it leave
      room for it. */
  lemma {:induction false} ScanTakes<B>(g: Graph<B>, id: int, list: seq<B>, cursor: nat, room: nat, p: nat)
    requires cursor <= |list| && Distinct(list) && p < |list| && Ready(g, id, list[p])
    ensures list[p] in Scan(g, id, list, cursor, room).0 <==>
            cursor <= p && ReadyIn(g, id, list[cursor..p]) < room
    decreases |list| - cursor
  {
    if room > 0 && cursor < |list| {
      var left := if Ready(g, id, list[cursor]) then room - 1 else room;
      ScanTakes(g, id, list, cursor + 1, left, p);
      if cursor < p {
        assert list[cursor..p][1..] == list[cursor + 1..p];
      }
    }
  }

  // ---------- every step keeps the invariant ----------

  /** Fetch: a flush fiber takes its first batch. Begin: it starts writing a buffer of its batch.
      Finish: a write completes and its fiber starts the follow-up buffer, if it got one.
      Outside: the next checkpoint changes buffers that this flush has finished with. */
  datatype Step<!B> = Fetch(room: nat) | Begin(b: B) | Finish(b: B) | Outside(g: Graph<B>)

  ghost predicate Enabled<B(!new)>(s: Flush<B>, step: Step<B>) {
    match step
    case Fetch(room) => room > 0
    case Begin(b) => b in s.picked
    case Finish(b) => b in s.writing
    case Outside(g) =>
      // The next checkpoint copies a buffer that is not clean before it writes it, and stamps
      // the clean buffers it takes over with its own id.
      && (forall b :: b in s.list ==> b in g)
      && (forall b :: b in s.list && b in s.g && b !in s.done ==> g[b] == s.g[b])
      && (forall b :: b in s.done && b in g ==> !(g[b].state == Dirty && g[b].dirtiedCp == s.id))
  }

  ghost function FetchStep<B(!new)>(s: Flush<B>, room: nat): Flush<B>
    requires s.cursor <= |s.list|
  {
    var (found, cursor) := Scan(s.g, s.id, s.list, s.cursor, room);
    s.(cursor := cursor, picked := s.picked + (set b | b in found))
  }

  /** Moving the scan from `ahead` to `ahead'` while taking the ready buffers in between. */
  lemma TakeKeepsBufs<B(!new)>(s: Flush<B>, t: Flush<B>, dom: set<B>, ahead: set<B>, ahead': set<B>, taken: set<B>)
    requires BufInv(s, dom, ahead)
    requires t == s.(cursor := t.cursor, picked := s.picked + taken)
    requires ahead' <= ahead && taken <= ahead && taken !! ahead'
    requires forall b :: b in taken ==> Ready(s.g, s.id, b)
    requires forall b :: b in ahead - ahead' && Ready(s.g, s.id, b) ==> b in taken
    ensures BufInv(t, dom, ahead')
  {
  }

  lemma FetchKeeps<B(!new)>(s: Flush<B>, room: nat)
    requires Inv(s) && room > 0
    ensures Inv(FetchStep(s, room))
  {
    var t := FetchStep(s, room);
    var (found, cursor) := Scan(s.g, s.id, s.list, s.cursor, room);
    var dom, taken := Ahead(s.list, 0), set b | b in found;
    ScanSets(s.g, s.id, s.list, s.cursor, room);
    TakeKeepsBufs(s, t, dom, Ahead(s.list, s.cursor), Ahead(s.list, cursor), taken);
    assert CountInv(t, dom) by {
      if found != [] { assert found[0] in t.picked; }
    }
    assert LogInv(t.log, t.done, t.writing, t.orig, dom);
  }

  lemma StartKeepsLog<B(!new)>(s: Flush<B>, dom: set<B>, b: B)
    requires LogInv(s.log, s.done, s.writing, s.orig, dom) && b in dom && b in s.g && b !in s.done + s.writing
    requires Below(s.orig, dom, b) <= s.done
    ensures LogInv(Start(s, b).log, Start(s, b).done, Start(s, b).writing, Start(s, b).orig, dom)
  {
    var t := Start(s, b);
    assert forall k :: 0 <= k < |s.log| ==> t.log[..k] == s.log[..k];
    assert t.log[..|s.log|] == s.log;
  }

  lemma FinishKeepsLog<B(!new)>(s: Flush<B>, t: Flush<B>, dom: set<B>, b: B)
    requires LogInv(s.log, s.done, s.writing, s.orig, dom) && b in dom && b in s.writing && b !in s.done
    requires t.log == s.log + [Finished(b)] && t.done == s.done + {b} && t.writing == s.writing - {b}
    requires t.orig == s.orig
    ensures LogInv(t.log, t.done, t.writing, t.orig, dom)
  {
    assert forall k :: 0 <= k < |s.log| ==> t.log[..k] == s.log[..k];
    assert t.log[..|s.log|] == s.log;
  }

  lemma BelowWithout<B(!new)>(orig: Graph<B>, active: set<B>, b: B, u: B)
    requires b in active && b in orig
    ensures Below(orig, active - {b}, u) == Below(orig, active, u) - {b}
    ensures |Below(orig, active - {b}, u)| == |Below(orig, active, u)| - (if orig[b].up == Some(u) then 1 else 0)
  {
    assert Below(orig, active - {b}, u) == Below(orig, active, u) - {b};
  }

  lemma BeginKeepsBufs<B(!new)>(s: Flush<B>, dom: set<B>, ahead: set<B>, b: B)
    requires BufInv(s, dom, ahead) && b in s.picked
    ensures BufInv(Start(s, b), dom, ahead)
  {
  }

  /** A waiting buffer whose count is zero has nothing left below it. */
  lemma ZeroMeansDone<B(!new)>(s: Flush<B>, dom: set<B>, ahead: set<B>, b: B)
    requires BufInv(s, dom, ahead) && b in dom - s.done && s.g[b].wait == 0
    ensures Below(s.orig, dom, b) <= s.done
  {
    assert Below(s.orig, dom - s.done, b) == {};
    assert forall d :: d in Below(s.orig, dom, b) && d !in s.done ==> d in Below(s.orig, dom - s.done, b);
  }

  lemma BeginKeeps<B(!new)>(s: Flush<B>, b: B)
    requires Inv(s) && b in s.picked
    ensures Inv(Start(s, b))
  {
    var dom, ahead := Ahead(s.list, 0), Ahead(s.list, s.cursor);
    BeginKeepsBufs(s, dom, ahead, b);
    ZeroMeansDone(s, dom, ahead, b);
    StartKeepsLog(s, dom, b);
    assert CountInv(Start(s, b), dom);
  }

  /** The state after a completion has released the buffer above and marked `b` clean. */
  ghost function Released<B(!new)>(s: Flush<B>, b: B): Flush<B>
    requires b in s.g && (s.g[b].up.Some? ==> s.g[b].up.value in s.g)
  {
    var g1 := Release(s.g, b).0;
    s.(g := g1[b := g1[b].(state := Clean)], count := s.count - 1, writing := s.writing - {b},
       done := s.done + {b}, log := s.log + [Finished(b)])
  }

  lemma ReleaseCounts<B(!new)>(s: Flush<B>, dom: set<B>, ahead: set<B>, b: B)
    requires BufInv(s, dom, ahead) && UpInv(s.orig, dom) && b in s.writing
    ensures forall u :: u in dom - s.done ==>
      |Below(s.orig, dom - (s.done + {b}), u)| ==
      |Below(s.orig, dom - s.done, u)| - (if s.orig[b].up == Some(u) then 1 else 0)
    ensures forall d :: d in dom - s.done ==> s.orig[d].up != Some(b)
  {
    forall u | u in dom - s.done
      ensures |Below(s.orig, dom - (s.done + {b}), u)| ==
              |Below(s.orig, dom - s.done, u)| - (if s.orig[b].up == Some(u) then 1 else 0)
    {
      BelowWithout(s.orig, dom - s.done, b, u);
      assert dom - (s.done + {b}) == dom - s.done - {b};
    }
    assert Below(s.orig, dom - s.done, b) == {};
    assert forall d :: d in dom - s.done && s.orig[d].up == Some(b) ==> d in Below(s.orig, dom - s.done, b);
  }

  /** `t` is `s` after `b`, whose link is `up`, completed: one count released, `b` clean. */
  ghost predicate AfterRelease<B(!new)>(s: Flush<B>, t: Flush<B>, b: B) {
    && t.(g := s.g, count := s.count, log := s.log, done := s.done, writing := s.writing) == s
    && t.done == s.done + {b} && t.writing == s.writing - {b}
    && t.g.Keys == s.g.Keys && b in s.g
    && t.g[b].state == Clean
    && (forall x :: x in s.g && x != b ==>
          t.g[x] == if s.g[b].up == Some(x) then s.g[x].(wait := s.g[x].wait - 1) else s.g[x])
  }

  lemma ReleasedEffect<B(!new)>(s: Flush<B>, b: B)
    requires b in s.g && (s.g[b].up.Some? ==> s.g[b].up.value in s.g) && s.g[b].up != Some(b)
    ensures AfterRelease(s, Released(s, b), b)
    ensures match Release(s.g, b).1
            case None => forall u :: s.g[b].up == Some(u) ==> Released(s, b).g[u].wait != 0
            case Some(u) => s.g[b].up == Some(u) && Released(s, b).g[u].wait == 0
  {
  }

  lemma ReleaseKeepsStages<B(!new)>(s: Flush<B>, t: Flush<B>, dom: set<B>, ahead: set<B>, b: B)
    requires BufInv(s, dom, ahead) && UpInv(s.orig, dom) && b in s.writing && AfterRelease(s, t, b)
    requires forall d :: d in dom - s.done ==> s.orig[d].up != Some(b)
    ensures Stages(t, dom, ahead) && Fields(t, dom)
  {
  }

  /** Releasing the buffer above keeps every count right. Either nothing became ready, or only the
      buffer above did, which then is dirty and untouched; starting it restores the invariant. */
  lemma ReleaseBufs<B(!new)>(s: Flush<B>, t: Flush<B>, dom: set<B>, ahead: set<B>, b: B)
    requires BufInv(s, dom, ahead) && UpInv(s.orig, dom) && b in s.writing && AfterRelease(s, t, b)
    ensures match s.orig[b].up
            case None => BufInv(t, dom, ahead)
            case Some(u) =>
              && u in dom - t.done - t.writing - t.picked && t.g[u].state == Dirty
              && (if t.g[u].wait == 0 then BufInv(Start(t, u), dom, ahead) else BufInv(t, dom, ahead))
  {
    hide Below;
    ReleaseCounts(s, dom, ahead, b);
    ReleaseKeepsStages(s, t, dom, ahead, b);
    ReleasedWaits(s, t, dom, ahead, b);
    if s.orig[b].up.Some? {
      var u := s.orig[b].up.value;
      if t.g[u].wait == 0 {
        StartFollower(t, dom, ahead, u);
      }
    }
  }

  /** The counts after the release: only that of the buffer above has changed, and it was positive. */
  lemma ReleasedWaits<B(!new)>(s: Flush<B>, t: Flush<B>, dom: set<B>, ahead: set<B>, b: B)
    requires BufInv(s, dom, ahead) && UpInv(s.orig, dom) && b in s.writing && AfterRelease(s, t, b)
    ensures forall x :: x in dom - t.done ==> x in t.g && t.g[x].wait == |Below(t.orig, dom - t.done, x)|
    ensures forall x :: x in dom - t.done && s.orig[b].up != Some(x) ==> t.g[x].wait == s.g[x].wait
    ensures s.orig[b].up.Some? ==> s.orig[b].up.value in dom - s.done && s.g[s.orig[b].up.value].wait > 0
  {
    ReleaseCounts(s, dom, ahead, b);
    if s.orig[b].up.Some? {
      assert b in Below(s.orig, dom - s.done, s.orig[b].up.value);
    }
  }

  /** Starting the one buffer that is ready but not taken. */
  lemma StartFollower<B(!new)>(t: Flush<B>, dom: set<B>, ahead: set<B>, u: B)
    requires Stages(t, dom, ahead) && Fields(t, dom)
    requires u in dom - t.done - t.writing - t.picked && t.g[u].wait == 0
    requires forall b :: b in dom - t.done ==> t.g[b].wait == |Below(t.orig, dom - t.done, b)|
    requires forall b :: b in dom * (t.picked + t.writing) ==> t.g[b].wait == 0
    requires forall b :: b in dom - ahead - t.picked - t.writing - t.done - {u} ==> t.g[b].wait > 0
    ensures BufInv(Start(t, u), dom, ahead)
  {
  }

  /** No completion dereferences a missing buffer. */
  ghost predicate CanFinish<B(!new)>(s: Flush<B>, b: B) {
    && b in s.g && (s.g[b].up.Some? ==> s.g[b].up.value in s.g) && s.cursor <= |s.list|
    && (Complete(s, b).1.Some? ==> Complete(s, b).1.value in Complete(s, b).0.g)
  }

  ghost function FinishStep<B(!new)>(s: Flush<B>, b: B): Flush<B>
    requires CanFinish(s, b)
  {
    var (t, next) := Complete(s, b);
    if next.Some? then Start(t, next.value) else t
  }

  lemma FinishDefined<B(!new)>(s: Flush<B>, b: B)
    requires Inv(s) && b in s.writing
    ensures CanFinish(s, b)
    ensures b in s.orig && s.g[b].up == s.orig[b].up != Some(b)
  {
    var dom, ahead := Ahead(s.list, 0), Ahead(s.list, s.cursor);
    ReleaseCounts(s, dom, ahead, b);
    var g1 := Release(s.g, b).0;
    ScanSets(g1, s.id, s.list, s.cursor, 1);
  }

  /** When everything is done, only the done buffers matter. */
  lemma LastBufs<B(!new)>(s: Flush<B>, t: Flush<B>, ahead: set<B>, b: B)
    requires BufInv(s, t.done, ahead) && b in s.writing
    requires t.g == s.g[b := s.g[b].(state := Clean)] && t.id == s.id && t.orig == s.orig
    requires t.done == s.done + {b} && t.writing == s.writing - {b} && t.picked == s.picked
    ensures BufInv(t, t.done, ahead)
  {
  }

  /** The last completion: everything is done. */
  lemma LastKeeps<B(!new)>(s: Flush<B>, b: B)
    requires Inv(s) && b in s.writing && s.count == 1
    ensures CanFinish(s, b) && Inv(FinishStep(s, b))
  {
    hide Fields, Counts, LogInv, UpInv;
    FinishDefined(s, b);
    var dom, t := Ahead(s.list, 0), Complete(s, b).0;
    FinishKeepsLog(s, t, dom, b);
    SubsetSize(t.done, dom);
    LastBufs(s, t, Ahead(s.list, s.cursor), b);
  }

  lemma CountAfter<B(!new)>(s: Flush<B>, t: Flush<B>, dom: set<B>, b: B)
    requires CountInv(s, dom) && b in dom && b !in s.done && s.count != 1 && s.done <= dom
    requires t.list == s.list && s.cursor <= t.cursor <= |t.list| && t.count == s.count - 1 && t.noMore == s.noMore
    requires t.done == s.done + {b}
    requires 0 < t.cursor < |t.list| ==> t.picked + t.writing != {}
    requires s.cursor > 0
    ensures CountInv(t, dom)
  {
    SubsetSize(t.done, dom);
  }

  lemma FinishKeeps<B(!new)>(s: Flush<B>, b: B)
    requires Inv(s) && b in s.writing
    ensures CanFinish(s, b) && Inv(FinishStep(s, b))
  {
    FinishDefined(s, b);
    if s.count == 1 {
      LastKeeps(s, b);
    } else if Release(s.g, b).1.Some? {
      FollowKeeps(s, b);
    } else {
      RescanKeeps(s, b);
    }
  }

  /** The completion releases the last count of the buffer above and starts it. */
  lemma FollowKeeps<B(!new)>(s: Flush<B>, b: B)
    requires Inv(s) && b in s.writing && s.count != 1
    requires b in s.g && (s.g[b].up.Some? ==> s.g[b].up.value in s.g)
    requires Release(s.g, b).1.Some?
    ensures CanFinish(s, b) && Inv(FinishStep(s, b))
  {
    var dom, ahead, r := Ahead(s.list, 0), Ahead(s.list, s.cursor), Released(s, b);
    FinishDefined(s, b);
    ReleasedEffect(s, b);
    ReleaseBufs(s, r, dom, ahead, b);
    FinishKeepsLog(s, r, dom, b);
    var u := Release(s.g, b).1.value;
    var t := Start(r, u);
    ZeroMeansDone(t, dom, ahead, u);
    StartKeepsLog(r, dom, u);
    assert u in t.writing;
    CountAfter(s, t, dom, b);
    assert FinishStep(s, b) == t;
  }

  lemma StartTaken<B(!new)>(q: Flush<B>, dom: set<B>, ahead: set<B>, x: B)
    requires BufInv(q, dom, ahead) && LogInv(q.log, q.done, q.writing, q.orig, dom) && x in q.picked
    ensures BufInv(Start(q, x), dom, ahead)
    ensures LogInv(Start(q, x).log, Start(q, x).done, Start(q, x).writing, Start(q, x).orig, dom)
  {
    BeginKeepsBufs(q, dom, ahead, x);
    ZeroMeansDone(q, dom, ahead, x);
    StartKeepsLog(q, dom, x);
  }

  lemma WritingIsFlushing<B(!new)>(s: Flush<B>, b: B)
    requires Inv(s) && b in s.writing
    ensures b in s.g && s.g[b].state == Flushing
  {
    hide Counts, LogInv, CountInv;
  }

  lemma RescanBufs<B(!new)>(s: Flush<B>, b: B, found: seq<B>, cursor: nat)
    requires Inv(s) && b in s.writing
    requires b in s.g && (s.g[b].up.Some? ==> s.g[b].up.value in s.g)
    requires Release(s.g, b).1.None?
    requires (found, cursor) == Scan(Release(s.g, b).0, s.id, s.list, s.cursor, 1)
    ensures var taken := set x | x in found;
            var q := Released(s, b).(cursor := cursor, picked := s.picked + taken);
            && BufInv(q, Ahead(s.list, 0), Ahead(s.list, cursor))
            && LogInv(q.log, q.done, q.writing, q.orig, Ahead(s.list, 0))
            && taken !! s.picked
  {
    hide Fields, Counts, LogInv, CountInv, InOrder;
    WritingIsFlushing(s, b);
    var dom, ahead, r := Ahead(s.list, 0), Ahead(s.list, s.cursor), Released(s, b);
    FinishDefined(s, b);
    ReleasedEffect(s, b);
    ReleaseBufs(s, r, dom, ahead, b);
    FinishKeepsLog(s, r, dom, b);
    var g1, taken := Release(s.g, b).0, set x | x in found;
    ScanSets(g1, s.id, s.list, s.cursor, 1);
    assert forall x :: Ready(g1, s.id, x) <==> Ready(r.g, s.id, x);
    TakeKeepsBufs(r, r.(cursor := cursor, picked := s.picked + taken), dom, ahead, Ahead(s.list, cursor), taken);
  }

  /** The completion found nothing above to write and takes the next ready buffer of the list. */
  lemma RescanIs<B(!new)>(s: Flush<B>, b: B, found: seq<B>, cursor: nat)
    requires b in s.g && (s.g[b].up.Some? ==> s.g[b].up.value in s.g) && s.cursor <= |s.list|
    requires Release(s.g, b).1.None? && s.count != 1
    requires (found, cursor) == Scan(Release(s.g, b).0, s.id, s.list, s.cursor, 1)
    requires (set x | x in found) !! s.picked
    ensures var (t, next) := Complete(s, b);
            var q := Released(s, b).(cursor := cursor, picked := s.picked + (set x | x in found));
            if found == [] then next == None && t == q
            else next == Some(found[0]) && found[0] in q.picked
                 && (found[0] in t.g ==> Start(t, found[0]) == Start(q, found[0]))
  {
    var q := Released(s, b).(cursor := cursor, picked := s.picked + (set x | x in found));
    if found == [] {
      assert q.picked == s.picked;
    } else {
      assert found == [found[0]];
      assert q.picked - {found[0]} == s.picked;
      assert s.picked - {found[0]} == s.picked;
    }
  }

  lemma RescanKeeps<B(!new)>(s: Flush<B>, b: B)
    requires Inv(s) && b in s.writing && s.count != 1
    requires b in s.g && (s.g[b].up.Some? ==> s.g[b].up.value in s.g)
    requires Release(s.g, b).1.None?
    ensures CanFinish(s, b) && Inv(FinishStep(s, b))
  {
    hide Fields, Counts, LogInv, UpInv, Complete, CanFinish;
    FinishDefined(s, b);
    var (found, cursor) := Scan(Release(s.g, b).0, s.id, s.list, s.cursor, 1);
    var dom := Ahead(s.list, 0);
    RescanBufs(s, b, found, cursor);
    RescanIs(s, b, found, cursor);
    var q := Released(s, b).(cursor := cursor, picked := s.picked + (set x | x in found));
    var t := if found == [] then q else Start(q, found[0]);
    if found != [] {
      StartTaken(q, dom, Ahead(s.list, cursor), found[0]);
      assert found[0] in t.writing;
    }
    CountAfter(s, t, dom, b);
  }

  lemma OutsideKeeps<B(!new)>(s: Flush<B>, g: Graph<B>)
    requires Inv(s) && Enabled(s, Outside(g))
    ensures Inv(s.(g := g))
  {
    var dom, ahead, t := Ahead(s.list, 0), Ahead(s.list, s.cursor), s.(g := g);
    AheadMembers(s.list, 0);
    assert s.list[0..] == s.list;
    assert forall b :: b in dom ==> b in s.list;
    assert Stages(t, dom, ahead) && Fields(t, dom) && Counts(t, dom, ahead);
    assert LogInv(t.log, t.done, t.writing, t.orig, dom);
    assert CountInv(t, dom);
  }

  // ---------- the theorems about whole runs ----------

  ghost predicate Defined<B(!new)>(s: Flush<B>, step: Step<B>) {
    match step
    case Fetch(_) => s.cursor <= |s.list|
    case Begin(b) => b in s.g
    case Finish(b) => CanFinish(s, b)
    case Outside(_) => true
  }

  /** One step; a step that is not enabled does nothing. */
  ghost function Apply<B(!new)>(s: Flush<B>, step: Step<B>): Flush<B> {
    if !Enabled(s, step) || !Defined(s, step) then s
    else
      match step
      case Fetch(room) => FetchStep(s, room)
      case Begin(b) => Start(s, b)
      case Finish(b) => FinishStep(s, b)
      case Outside(g) => s.(g := g)
  }

  ghost function Exec<B(!new)>(s: Flush<B>, steps: seq<Step<B>>): Flush<B> {
    if steps == [] then s else Apply(Exec(s, steps[..|steps| - 1]), steps[|steps| - 1])
  }

  lemma EnabledDefined<B(!new)>(s: Flush<B>, step: Step<B>)
    requires Inv(s) && Enabled(s, step)
    ensures Defined(s, step)
  {
    if step.Finish? {
      FinishDefined(s, step.b);
    }
  }

  lemma StepKeeps<B(!new)>(s: Flush<B>, step: Step<B>)
    requires Inv(s)
    ensures Inv(Apply(s, step))
    ensures Enabled(s, step) ==> Defined(s, step)
  {
    hide Inv, Complete;
    if Enabled(s, step) {
      EnabledDefined(s, step);
      match step
      case Fetch(room) => FetchKeeps(s, room);
      case Begin(b) => BeginKeeps(s, b);
      case Finish(b) => FinishKeeps(s, b);
      case Outside(g) => OutsideKeeps(s, g);
    }
  }

  /** A flush about to begin: each dirty buffer listed once, every link inside the list, every
      count equal to the number of links. */
  ghost predicate Initial<B(!new)>(s: Flush<B>) {
    && s.list != [] && Distinct(s.list)
    && s.g == s.orig
    && (forall b :: b in s.list ==> b in s.g && s.g[b].state == Dirty && s.g[b].dirtiedCp == s.id)
    && (forall b :: b in s.list && b in s.g && s.g[b].up.Some? ==> s.g[b].up.value in s.list)
    && (forall u :: u in s.list && u in s.g ==> s.g[u].wait == |Below(s.orig, (set b | b in s.list), u)|)
    && s.cursor == 0 && s.count == |s.list|
    && s.picked == s.writing == s.done == {} && s.log == [] && s.noMore == 0
  }

  lemma InitialInv<B(!new)>(s: Flush<B>)
    requires Initial(s)
    ensures Inv(s)
  {
    var dom := Ahead(s.list, 0);
    AheadMembers(s.list, 0);
    AheadSize(s.list, 0);
    assert s.list[0..] == s.list;
    assert dom == set b | b in s.list;
    assert dom - s.done == dom;
    assert Stages(s, dom, dom) && Fields(s, dom) && Counts(s, dom, dom);
    assert UpInv(s.orig, dom);
  }

  lemma StepFrame<B(!new)>(s: Flush<B>, step: Step<B>)
    ensures Apply(s, step).list == s.list && Apply(s, step).orig == s.orig && Apply(s, step).id == s.id
  {
  }

  lemma {:induction false} RunKeeps<B(!new)>(s: Flush<B>, steps: seq<Step<B>>)
    requires Inv(s)
    ensures var t := Exec(s, steps); Inv(t) && t.list == s.list && t.orig == s.orig && t.id == s.id
  {
    if steps != [] {
      var before := steps[..|steps| - 1];
      RunKeeps(s, before);
      StepKeeps(Exec(s, before), steps[|steps| - 1]);
      StepFrame(Exec(s, before), steps[|steps| - 1]);
    }
  }

  lemma DomIsList<B(!new)>(t: Flush<B>)
    ensures Ahead(t.list, 0) == set b | b in t.list
  {
    AheadMembers(t.list, 0);
    assert t.list[0..] == t.list;
  }

  lemma AllDone<B(!new)>(t: Flush<B>)
    requires Inv(t)
    ensures t.done <= Ahead(t.list, 0)
    ensures t.count == 0 <==> t.done == Ahead(t.list, 0)
    ensures t.noMore == (if t.count == 0 then 1 else 0)
  {
    hide Fields, Counts, LogInv;
    SubsetSize(t.done, Ahead(t.list, 0));
  }

  /** The log order, read back link by link. */
  lemma OrderMeans<B(!new)>(log: seq<Event<B>>, orig: Graph<B>, dom: set<B>)
    requires InOrder(log, orig, dom)
    ensures forall k, b :: 0 <= k < |log| && log[k].Started? && b in dom && b in orig && orig[b].up == Some(log[k].buf)
              ==> Finished(b) in log[..k]
  {
    forall k, b | 0 <= k < |log| && log[k].Started? && b in dom && b in orig && orig[b].up == Some(log[k].buf)
      ensures Finished(b) in log[..k]
    {
      assert b in Below(orig, dom, log[k].buf);
    }
  }

  /** In every flush run, whatever the order of completions and whatever the next checkpoint does:
      a buffer is written at most once; it is written only after every buffer linked below it has
      completed; "no more" is reported exactly once, when every listed buffer has completed. */
  lemma FlushRun<B(!new)>(s: Flush<B>, steps: seq<Step<B>>)
    requires Initial(s)
    ensures var t := Exec(s, steps);
      && Distinct(t.log)
      && (forall b :: Finished(b) in t.log ==> Started(b) in t.log && b in s.list)
      && (forall k, b :: 0 <= k < |t.log| && t.log[k].Started? && b in s.list && s.orig[b].up == Some(t.log[k].buf)
            ==> Finished(b) in t.log[..k])
      && t.noMore == (if t.count == 0 then 1 else 0)
      && (t.noMore == 1 <==> forall b :: b in s.list ==> Finished(b) in t.log)
  {
    hide BufInv, InOrder;
    InitialInv(s);
    RunKeeps(s, steps);
    var t := Exec(s, steps);
    DomIsList(t);
    AllDone(t);
    OrderMeans(t.log, t.orig, Ahead(t.list, 0));
  }

  /** The links of the listed buffers are acyclic. */
  ghost predicate Ranked<B(!new)>(orig: Graph<B>, list: seq<B>, rank: map<B, nat>) {
    forall b :: b in list ==>
      && b in rank && b in orig
      && (orig[b].up.Some? ==> orig[b].up.value in rank && rank[b] < rank[orig[b].up.value])
  }

  /** With nothing in flight every unfinished buffer waits for one of lower rank: impossible. */
  lemma {:induction false} Descend<B(!new)>(t: Flush<B>, dom: set<B>, rank: map<B, nat>, list: seq<B>, b: B)
    requires BufInv(t, dom, {}) && t.picked + t.writing == {}
    requires Ranked(t.orig, list, rank) && forall d :: d in dom ==> d in list
    requires b in dom - t.done && b in rank
    ensures false
    decreases rank[b]
  {
    assert b in dom - {} - t.picked - t.writing - t.done;
    var d :| d in Below(t.orig, dom - t.done, b);
    Descend(t, dom, rank, list, d);
  }

  lemma SomeInFlight<B(!new)>(t: Flush<B>, rank: map<B, nat>)
    requires Inv(t) && Ranked(t.orig, t.list, rank) && t.cursor > 0 && t.count != 0
    ensures t.picked + t.writing != {}
  {
    hide Fields, Counts, LogInv;
    if t.picked + t.writing == {} {
      var dom := Ahead(t.list, 0);
      DomIsList(t);
      AllDone(t);
      assert dom - t.done != {};
      var b :| b in dom - t.done;
      Descend(t, dom, rank, t.list, b);
    }
  }

  /** The run never stalls: after the first batch was fetched and until "no more" is reported, some
      buffer is being written or about to be. */
  lemma NeverStalls<B(!new)>(s: Flush<B>, steps: seq<Step<B>>, rank: map<B, nat>)
    requires Initial(s) && Ranked(s.orig, s.list, rank)
    requires Exec(s, steps).cursor > 0 && Exec(s, steps).noMore == 0
    ensures exists b :: Enabled(Exec(s, steps), Begin(b)) || Enabled(Exec(s, steps), Finish(b))
  {
    hide Inv, Ranked, Exec;
    InitialInv(s);
    RunKeeps(s, steps);
    var t := Exec(s, steps);
    AllDone(t);
    SomeInFlight(t, rank);
    var b :| b in t.picked + t.writing;
    if b in t.picked {
      assert Enabled(t, Begin(b));
    } else {
      assert Enabled(t, Finish(b));
    }
  }

  /** Starts and completions left to do. */
  ghost function Remaining<B(!new)>(s: Flush<B>): int {
    2 * (|s.list| - |s.done|) - |s.writing|
  }

  lemma RemainingNonNegative<B(!new)>(s: Flush<B>)
    requires Inv(s)
    ensures Remaining(s) >= 0
  {
    var dom := Ahead(s.list, 0);
    SubsetSize(s.done + s.writing, dom);
    assert |s.done + s.writing| == |s.done| + |s.writing|;
  }

  lemma FinishSets<B(!new)>(s: Flush<B>, b: B)
    requires CanFinish(s, b) && b in s.writing && b !in s.done
    ensures var t := FinishStep(s, b); t.list == s.list && |t.done| == |s.done| + 1 && |t.writing| >= |s.writing| - 1
  {
    var (t, next) := Complete(s, b);
    assert |t.writing| == |s.writing| - 1;
    if next.Some? {
      SubsetSize(t.writing, t.writing + {next.value});
    }
  }

  /** Every run ends: each start and each completion brings the flush closer to "no more". */
  lemma Progress<B(!new)>(s: Flush<B>, step: Step<B>)
    requires Inv(s) && Enabled(s, step)
    ensures 0 <= Remaining(Apply(s, step)) <= Remaining(s)
    ensures step.Begin? || step.Finish? ==> Remaining(Apply(s, step)) < Remaining(s)
  {
    hide Fields, Counts, LogInv, CountInv, Complete, FinishStep;
    StepKeeps(s, step);
    RemainingNonNegative(Apply(s, step));
    if step.Finish? {
      FinishSets(s, step.b);
    }
  }
}
