/**
  The authoritative `links` table behind a database session, and the queue of
  work scheduled to run after a response (background tasks, event-loop tasks).
*/
module Store {
  import opened Common
  import opened Models

  /** A call made on the session that writes or ends a transaction. */
  datatype SessionOp = Added(link: Link) | Deleted(shortCode: string) | Committed | RolledBack | Closed

  /**
    A session over the table. `rows` is what is committed; `view` is what this
    session sees, its own pending writes included (queries autoflush). A commit
    publishes `view`; a rollback or close throws it away.
  */
  class Session {
    var rows: map<string, Link>
    var view: map<string, Link>
    var nextId: int
    var log: seq<SessionOp>

    /** Short codes key the rows (the unique `short_code` column); ids are handed out in order. */
    ghost predicate Valid()
      reads this
    {
      KeyedByCode(rows) && KeyedByCode(view) && IdsBelow(rows, nextId) && IdsBelow(view, nextId)
    }

    /** No pending writes: the state between two requests. */
    predicate Clean()
      reads this
    {
      view == rows
    }

    constructor ()
      ensures Valid() && Clean()
      ensures rows == map[] && nextId == 1 && log == []
    {
      rows := map[];
      view := map[];
      nextId := 1;
      log := [];
    }

    /** `session.add(link)`: stage a new row; the store assigns its id. */
    method Add(link: Link) returns (stored: Link)
      requires Valid()
      requires link.shortCode !in view
      modifies this
      ensures Valid()
      ensures stored == link.(id := old(nextId))
      ensures view == old(view)[link.shortCode := stored]
      ensures rows == old(rows) && nextId == old(nextId) + 1
      ensures log == old(log) + [Added(stored)]
    {
      stored := link.(id := nextId);
      view := view[link.shortCode := stored];
      nextId := nextId + 1;
      log := log + [Added(stored)];
    }

    /** Field assignments on a row this session loaded (the row keeps its code and id). */
    method Put(link: Link)
      requires Valid()
      requires link.shortCode in view && link.id == view[link.shortCode].id
      modifies this
      ensures Valid()
      ensures view == old(view)[link.shortCode := link]
      ensures rows == old(rows) && nextId == old(nextId) && log == old(log)
    {
      view := view[link.shortCode := link];
    }

    /** Delete the row whose short code is `code`, if there is one. */
    method Delete(code: string)
      requires Valid()
      modifies this
      ensures Valid()
      ensures view == old(view) - {code}
      ensures rows == old(rows) && nextId == old(nextId)
      ensures log == old(log) + [Deleted(code)]
    {
      view := view - {code};
      log := log + [Deleted(code)];
    }

    /** `session.commit()`; whether the database accepts it is decided by `ok`. */
    method Commit(ok: bool) returns (committed: bool)
      requires Valid()
      modifies this
      ensures Valid()
      ensures committed == ok
      ensures rows == (if ok then old(view) else old(rows))
      ensures view == old(view) && nextId == old(nextId)
      ensures log == old(log) + [Committed]
    {
      committed := ok;
      if ok {
        rows := view;
      }
      log := log + [Committed];
    }

    /** `session.rollback()`: drop pending writes. */
    method Rollback()
      requires Valid()
      modifies this
      ensures Valid() && Clean()
      ensures rows == old(rows) && nextId == old(nextId)
      ensures log == old(log) + [RolledBack]
    {
      view := rows;
      log := log + [RolledBack];
    }

    /** Leaving the session's `with` block: whatever was not committed is dropped. */
    method Close()
      requires Valid()
      modifies this
      ensures Valid() && Clean()
      ensures rows == old(rows) && nextId == old(nextId)
      ensures log == old(log) + [Closed]
    {
      view := rows;
      log := log + [Closed];
    }
  }

  /** The short codes of `links`. */
  function CodeSet(links: seq<Link>): set<string> {
    set l | l in links :: l.shortCode
  }

  /**
    `execute(select(Link).filter(...)).scalars().all()`: the rows under `codes`,
    each exactly once, in no particular order.
  */
  method SelectRows(rows: map<string, Link>, codes: set<string>) returns (links: seq<Link>)
    requires KeyedByCode(rows) && codes <= rows.Keys
    ensures forall l :: l in links <==> l.shortCode in codes && rows[l.shortCode] == l
    ensures |links| == |codes|
    ensures CodeSet(links) == codes
  {
    var remaining := codes;
    ghost var done: set<string> := {};
    links := [];
    while remaining != {}
      invariant remaining !! done && remaining + done == codes
      invariant forall l :: l in links <==> l.shortCode in done && rows[l.shortCode] == l
      invariant |links| == |done|
      decreases remaining
    {
      var code :| code in remaining;
      links := links + [rows[code]];
      remaining := remaining - {code};
      done := done + {code};
    }
    assert CodeSet(links) == codes by {
      forall c | c in codes ensures c in CodeSet(links) {
        assert rows[c] in links;
      }
    }
  }

  /** Work scheduled to run after the current request or task step. */
  datatype Task =
    | IncrementCounter(shortCode: string)
    | InvalidateCache(code: Option<string>, originalUrl: Option<string>)

  /** `BackgroundTasks` / the event loop's task list: tasks are only recorded here. */
  class TaskQueue {
    var pending: seq<Task>

    constructor ()
      ensures pending == []
    {
      pending := [];
    }

    method Add(task: Task)
      modifies this
      ensures pending == old(pending) + [task]
    {
      pending := pending + [task];
    }
  }
}
