/**
 * The persistence layer, replaced by an in-memory database holding the two
 * tables the services read and write.
 */
module Store {
  import opened Users
  import opened Sessions

  /** No stored session uses `key`. */
  predicate KeyUnused(sessions: seq<UserSession>, key: string) {
    forall i :: 0 <= i < |sessions| ==> sessions[i].sessionKey != key
  }

  /** Session keys are distinct, and every session is well formed. */
  predicate SessionTable(sessions: seq<UserSession>) {
    && (forall i :: 0 <= i < |sessions| ==> WellFormed(sessions[i]))
    && (forall i, j :: 0 <= i < j < |sessions| ==> sessions[i].sessionKey != sessions[j].sessionKey)
  }

  class Database {
    var users: seq<User>
    var sessions: seq<UserSession>

    /** What the database guarantees of its rows. */
    ghost predicate Valid()
      reads this
    {
      PersistedTable(users) && SessionTable(sessions)
    }

    /** An empty database. */
    constructor ()
      ensures Valid()
      ensures users == [] && sessions == []
    {
      users := [];
      sessions := [];
    }
  }
}
