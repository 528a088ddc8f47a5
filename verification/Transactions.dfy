/** The unit of work of data/database.py: begin, then commit or roll back, never nested. */
module Transactions {
  import opened Wrappers

  /** What goes wrong while a transaction is being ended; all false in the normal case. */
  datatype Faults = Faults(commitFails: bool, closedByCommit: bool, rollbackFails: bool)

  const NO_FAULTS := Faults(false, false, false)

  /** The durable content shared by all connections. */
  class Database<S> {
    var committed: S

    constructor (initial: S)
      ensures committed == initial
    {
      committed := initial;
    }
  }

  /** One connection; it is in a transaction while it holds a working copy. */
  class Connection<S> {
    const database: Database<S>
    var working: Option<S>

    constructor (database: Database<S>)
      ensures this.database == database && working.None?
    {
      this.database := database;
      working := None;
    }

    /** BEGIN: refused, with nothing changed, inside an open transaction. */
    method Begin() returns (begun: bool)
      modifies this
      ensures begun <==> old(working).None?
      ensures begun ==> working == Some(database.committed)
      ensures !begun ==> working == old(working)
    {
      begun := working.None?;
      if begun {
        working := Some(database.committed);
      }
    }

    /** The body returned: its writes become durable together, or, when the commit fails, not at all. */
    method Commit(faults: Faults) returns (committed: bool)
      requires working.Some?
      modifies this, database
      ensures committed <==> !faults.commitFails
      ensures database.committed == if committed then old(working).value else old(database.committed)
      ensures working.Some? <==> faults.commitFails && !faults.closedByCommit && faults.rollbackFails
      ensures working.Some? ==> working == old(working)
    {
      committed := !faults.commitFails;
      if committed {
        database.committed := working.value;
        working := None;
      } else if faults.closedByCommit {
        working := None;
      } else {
        Rollback(faults);
      }
    }

    /** The body raised: nothing it wrote becomes durable, even when rolling back fails too. */
    method Rollback(faults: Faults)
      requires working.Some?
      modifies this
      ensures working == if faults.rollbackFails then old(working) else None
    {
      if !faults.rollbackFails {
        working := None;
      }
    }
  }
}
