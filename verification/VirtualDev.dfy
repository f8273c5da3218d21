/** The virtual device as the object that keeps or applies frees. */
module VirtualDevs {

  import opened Sequences
  import D = DeferredFree

  /** VDevCPContext: the frees kept for one checkpoint. */
  class VDevCPContext {
    var freeList: seq<D.Blk>

    constructor ()
      ensures freeList == []
    {
      freeList := [];
    }
  }

  class VirtualDev {
    /** Whether chunks use the append allocator, which never defers. */
    const append: bool

    /** Blocks the allocators may hand out. */
    var free: set<D.Blk>

    constructor (isAppend: bool, blocks: set<D.Blk>)
      ensures append == isAppend && free == blocks
    {
      append, free := isAppend, blocks;
    }

    /** free_blk of a list of pieces: deferred as a whole or applied as a whole. */
    method FreeBlk(pieces: seq<D.Blk>, ctx: VDevCPContext?, freeNow: bool)
      modifies this`free, ctx
      ensures var deferred := ctx != null && !append && !freeNow;
              && (deferred ==> ctx.freeList == old(ctx.freeList) + pieces && free == old(free))
              && (!deferred ==>
                   free == old(free) + Elements(pieces) && (ctx != null ==> ctx.freeList == old(ctx.freeList)))
    {
      for i := 0 to |pieces|
        invariant var deferred := ctx != null && !append && !freeNow;
                  && (deferred ==> ctx.freeList == old(ctx.freeList) + pieces[..i] && free == old(free))
                  && (!deferred ==>
                       free == old(free) + Elements(pieces[..i]) && (ctx != null ==> ctx.freeList == old(ctx.freeList)))
      {
        assert pieces[..i + 1] == pieces[..i] + [pieces[i]];
        if ctx != null && !append && !freeNow {
          ctx.freeList := ctx.freeList + [pieces[i]];
        } else {
          free := free + {pieces[i]};
        }
      }
      assert pieces[..|pieces|] == pieces;
    }

    /** cp_flush: the frees of the checkpoint are applied, in the order they came. */
    method CpFlush(ctx: VDevCPContext)
      modifies this`free
      ensures free == old(free) + Elements(ctx.freeList)
    {
      for i := 0 to |ctx.freeList|
        invariant free == old(free) + Elements(ctx.freeList[..i])
      {
        assert ctx.freeList[..i + 1] == ctx.freeList[..i] + [ctx.freeList[i]];
        free := free + {ctx.freeList[i]};
      }
      assert ctx.freeList[..|ctx.freeList|] == ctx.freeList;
    }
  }
}
