/** Where queued frames go: the books that whole runs are balanced by. */
module Ledgers {
  import opened FramePool

  datatype Ledger = Ledger(
    queued: multiset<Frame>, played: multiset<Frame>, late: multiset<Frame>, discarded: multiset<Frame>,
    lost: multiset<Frame>, evicted: multiset<Frame>, flushed: multiset<Frame>)

  /** Frames that are no longer held anywhere. */
  function Gone(l: Ledger): multiset<Frame> {
    l.played + l.late + l.discarded + l.lost + l.evicted + l.flushed
  }

  /** A frame is queued and frames are evicted for it. */
  lemma Requeued(l: Ledger, held: multiset<Frame>, c: multiset<Frame>, kept: multiset<Frame>, after: multiset<Frame>,
                 added: multiset<Frame>)
    requires l.queued == Gone(l) + (held + c) && kept <= c && after == kept + added
    ensures var m := l.(queued := l.queued + added, evicted := l.evicted + (c - kept));
      m.queued == Gone(m) + (held + after)
  {
    var m := l.(queued := l.queued + added, evicted := l.evicted + (c - kept));
    forall x ensures m.queued[x] == (Gone(m) + (held + after))[x] {
      assert l.queued[x] == (Gone(l) + (held + c))[x];
    }
  }
}
