/**
 The flush parameters of deflate and their order, which decides whether a repeated call has anything to do.
 */
module Flushing {
  /** The flush parameter of deflate. */
  datatype Flush = NoFlush | PartialFlush | SyncFlush | FullFlush | Finish | BlockFlush

  /** The number of a flush parameter. */
  function FlushCode(flush: Flush): int {
    match flush
    case NoFlush => 0
    case PartialFlush => 1
    case SyncFlush => 2
    case FullFlush => 3
    case Finish => 4
    case BlockFlush => 5
  }

  /** RANK, which orders the flush parameters. */
  function FlushRank(f: int): int {
    f * 2 - if f > 4 then 9 else 0
  }

  /**
   The flush parameters by how much they flush; a repeated call is useless unless it flushes more than the
   one before, and -1 and -2, for an interrupted call and for none, are below all.
   */
  lemma RankOrders(f: Flush, g: Flush)
    ensures FlushRank(FlushCode(f)) <= FlushRank(FlushCode(g)) <==> FlushesNoMore(f, g)
    ensures FlushRank(-2) < FlushRank(-1) < FlushRank(FlushCode(f))
  {
  }

  /** In order: nothing, up to a whole byte or not, with an empty block, without history, to the end. */
  predicate FlushesNoMore(f: Flush, g: Flush) {
    match f
    case NoFlush => true
    case BlockFlush => !g.NoFlush?
    case PartialFlush => !g.NoFlush? && !g.BlockFlush?
    case SyncFlush => g.SyncFlush? || g.FullFlush? || g.Finish?
    case FullFlush => g.FullFlush? || g.Finish?
    case Finish => g.Finish?
  }
}
