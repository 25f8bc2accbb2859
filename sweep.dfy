/**
  The periodic sweep that deletes outdated links. A link with an expiry is
  outdated once the expiry has passed; a link without one is outdated once it
  has been neither updated nor used for the configured number of days.
*/
module Tasks {
  import opened Common
  import opened Models
  import opened Store

  /** The TTL in microseconds. */
  function TtlSpan(ttlDays: nat): int {
    ttlDays * MICROS_PER_DAY
  }

  /** The sweep's selection filter, with one reading of the clock `now`. */
  predicate Outdated(link: Link, now: int, ttlDays: nat) {
    var ttlLimit := now - TtlSpan(ttlDays);
    || (link.expiresAt.None?
        && link.updatedAt + TtlSpan(ttlDays) < now
        && (link.lastUsedAt.None? || link.lastUsedAt.value < ttlLimit))
    || (link.expiresAt.Some? && link.expiresAt.value < now)
  }

  /** A passed expiry selects a link whatever its update and use times. */
  lemma ExpiredAlwaysSelected(link: Link, now: int, ttlDays: nat)
    requires link.expiresAt.Some? && link.expiresAt.value < now
    ensures Outdated(link, now, ttlDays)
    ensures forall u, l :: Outdated(link.(updatedAt := u, lastUsedAt := l), now, ttlDays)
  {
  }

  /** An expiry not yet passed protects a link, however stale it is. */
  lemma PendingExpiryNeverSelected(link: Link, now: int, ttlDays: nat)
    requires link.expiresAt.Some? && link.expiresAt.value >= now
    ensures !Outdated(link, now, ttlDays)
    ensures forall u, l :: !Outdated(link.(updatedAt := u, lastUsedAt := l), now, ttlDays)
  {
  }

  /**
    Without an expiry, a link is selected exactly when its last update is more
    than the TTL ago and it was never used or last used more than the TTL ago.
  */
  lemma NoExpiryRule(link: Link, now: int, ttlDays: nat)
    requires link.expiresAt.None?
    ensures Outdated(link, now, ttlDays)
            <==> link.updatedAt < now - ttlDays * MICROS_PER_DAY
                 && (link.lastUsedAt.None? || link.lastUsedAt.value < now - ttlDays * MICROS_PER_DAY)
  {
  }

  /**
    With a 7-day TTL, a never-used link updated one day ago stays and one
    updated eight days ago goes; a recent use keeps even the old one.
  */
  lemma SevenDayTtl(link: Link, now: int)
    requires link.expiresAt.None?
    ensures !Outdated(link.(updatedAt := now - MICROS_PER_DAY, lastUsedAt := None), now, 7)
    ensures Outdated(link.(updatedAt := now - 8 * MICROS_PER_DAY, lastUsedAt := None), now, 7)
    ensures !Outdated(link.(updatedAt := now - 8 * MICROS_PER_DAY, lastUsedAt := Some(now - MICROS_PER_DAY)), now, 7)
  {
  }

  /** The codes of the rows the sweep selects. */
  function OutdatedCodes(rows: map<string, Link>, now: int, ttlDays: nat): (codes: set<string>)
    ensures forall c :: c in codes <==> c in rows && Outdated(rows[c], now, ttlDays)
  {
    set c | c in rows && Outdated(rows[c], now, ttlDays)
  }

  /** The session calls deleting `links`, in order. */
  function DeleteOps(links: seq<Link>): seq<SessionOp> {
    if links == [] then [] else DeleteOps(links[..|links| - 1]) + [Deleted(links[|links| - 1].shortCode)]
  }

  /** The invalidations scheduled for `links`, in order. */
  function InvalidationTasks(links: seq<Link>): seq<Task> {
    if links == [] then []
    else InvalidationTasks(links[..|links| - 1])
         + [InvalidateCache(Some(links[|links| - 1].shortCode), Some(links[|links| - 1].longUrl))]
  }

  /** One delete per link, for that link's code, in order. */
  lemma {:induction false} DeleteOpsOnePerLink(links: seq<Link>)
    ensures |DeleteOps(links)| == |links|
    ensures forall i :: 0 <= i < |links| ==> DeleteOps(links)[i] == Deleted(links[i].shortCode)
  {
    if links != [] {
      DeleteOpsOnePerLink(links[..|links| - 1]);
    }
  }

  /** Exactly one invalidation per link, carrying that link's code and URL, in order. */
  lemma {:induction false} InvalidationTasksOnePerLink(links: seq<Link>)
    ensures |InvalidationTasks(links)| == |links|
    ensures forall i :: 0 <= i < |links| ==>
              InvalidationTasks(links)[i] == InvalidateCache(Some(links[i].shortCode), Some(links[i].longUrl))
  {
    if links != [] {
      InvalidationTasksOnePerLink(links[..|links| - 1]);
    }
  }

  lemma DeleteOpsAppend(links: seq<Link>, link: Link)
    ensures DeleteOps(links + [link]) == DeleteOps(links) + [Deleted(link.shortCode)]
  {
    assert (links + [link])[..|links|] == links;
  }

  lemma InvalidationTasksAppend(links: seq<Link>, link: Link)
    ensures InvalidationTasks(links + [link])
            == InvalidationTasks(links) + [InvalidateCache(Some(link.shortCode), Some(link.longUrl))]
  {
    assert (links + [link])[..|links|] == links;
  }

  /**
    `clear_outdated_links_task`: select the outdated rows; if there are any,
    delete each one and schedule one invalidation for it, then commit once;
    leave the session's block in every case. A failed commit raises (`raised`)
    after the invalidations were scheduled, and the rows stay.
  */
  method ClearOutdatedLinks(session: Session, queue: TaskQueue, ttlDays: nat, now: int, commitOk: bool)
    returns (deleted: seq<Link>, raised: bool)
    requires session.Valid() && session.Clean()
    modifies session, queue
    ensures session.Valid() && session.Clean()
    ensures var outdated := OutdatedCodes(old(session.rows), now, ttlDays);
      && (forall l :: l in deleted <==> l.shortCode in outdated && old(session.rows)[l.shortCode] == l)
      && |deleted| == |outdated|
      && raised == (outdated != {} && !commitOk)
      && session.rows == (if raised then old(session.rows) else old(session.rows) - outdated)
      && session.log == old(session.log) + DeleteOps(deleted) + (if outdated == {} then [] else [Committed]) + [Closed]
      && queue.pending == old(queue.pending) + InvalidationTasks(deleted)
  {
    var rows := session.view;
    var outdated := OutdatedCodes(rows, now, ttlDays);
    var outdatedLinks := SelectRows(rows, outdated);
    deleted := [];
    raised := false;
    if outdatedLinks != [] {
      DeleteBatch(session, queue, outdatedLinks);
      deleted := outdatedLinks;
      var committed := session.Commit(commitOk);
      raised := !committed;
    }
    session.Close();
  }

  /** Appending a link adds its code. */
  lemma CodeSetAppend(links: seq<Link>, link: Link)
    ensures CodeSet(links + [link]) == CodeSet(links) + {link.shortCode}
  {
    assert forall l :: l in links + [link] <==> l in links || l == link;
  }

  /** What one more turn of the sweep's loop adds to the code set, the log and the tasks. */
  lemma BatchStep(links: seq<Link>, i: nat)
    requires i < |links|
    ensures CodeSet(links[..i + 1]) == CodeSet(links[..i]) + {links[i].shortCode}
    ensures DeleteOps(links[..i + 1]) == DeleteOps(links[..i]) + [Deleted(links[i].shortCode)]
    ensures InvalidationTasks(links[..i + 1])
            == InvalidationTasks(links[..i]) + [InvalidateCache(Some(links[i].shortCode), Some(links[i].longUrl))]
  {
    assert links[..i + 1] == links[..i] + [links[i]];
    CodeSetAppend(links[..i], links[i]);
    DeleteOpsAppend(links[..i], links[i]);
    InvalidationTasksAppend(links[..i], links[i]);
  }

  /** The loop of the sweep: delete each link and schedule its invalidation. */
  method DeleteBatch(session: Session, queue: TaskQueue, links: seq<Link>)
    requires session.Valid()
    modifies session, queue
    ensures session.Valid() && session.rows == old(session.rows)
    ensures session.view == old(session.view) - CodeSet(links)
    ensures session.log == old(session.log) + DeleteOps(links)
    ensures queue.pending == old(queue.pending) + InvalidationTasks(links)
  {
    for i := 0 to |links|
      invariant session.Valid() && session.rows == old(session.rows)
      invariant session.view == old(session.view) - CodeSet(links[..i])
      invariant session.log == old(session.log) + DeleteOps(links[..i])
      invariant queue.pending == old(queue.pending) + InvalidationTasks(links[..i])
    {
      var link := links[i];
      session.Delete(link.shortCode);
      queue.Add(InvalidateCache(Some(link.shortCode), Some(link.longUrl)));
      BatchStep(links, i);
    }
    assert links[..|links|] == links;
  }

  /** What the sweep keeps: exactly the rows it did not select (when its commit goes through). */
  lemma SweepKeepsUnselected(rows: map<string, Link>, now: int, ttlDays: nat, c: string)
    requires c in rows
    ensures c in rows - OutdatedCodes(rows, now, ttlDays) <==> !Outdated(rows[c], now, ttlDays)
  {
  }
}
