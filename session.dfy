/**
 * The session store: one row per session id holding the turn count, the
 * sticky category, the collected slots and the steps attempted. The SQLite
 * table is modelled as a map keyed by its primary key, `session_id`.
 */
module Session {
  import opened Options
  import opened Dicts
  import opened Schemas

  /** What a row of the sessions table holds besides its key. */
  datatype SessionRecord = SessionRecord(
    turns: int,
    category: Option<string>,
    collected: Dict<Value>,
    stepsAttempted: seq<string>)

  /** The state of a session nobody has spoken in yet. */
  function Fresh(): (r: SessionRecord)
    ensures r.turns == 0 && r.category == None && r.collected == [] && r.stepsAttempted == []
  {
    SessionRecord(0, None, [], [])
  }

  /** `INSERT ... ON CONFLICT(session_id) DO UPDATE`: the row under `sid` becomes `rec`, whether or not it existed. */
  function Upsert(rows: map<string, SessionRecord>, sid: string, rec: SessionRecord): (r: map<string, SessionRecord>)
    ensures sid in r && r[sid] == rec
    ensures r.Keys == rows.Keys + {sid}
    ensures forall other :: other in rows && other != sid ==> r[other] == rows[other]
  {
    rows[sid := rec]
  }

  /**
   * A load: the stored record when `sid` is known; otherwise a fresh record,
   * which is stored under `sid` as a side effect. Returns the record and the new table.
   */
  function Lookup(rows: map<string, SessionRecord>, sid: string): (r: (SessionRecord, map<string, SessionRecord>))
    ensures sid in rows ==> r == (rows[sid], rows)
    ensures sid !in rows ==> r.0 == Fresh() && r.1 == Upsert(rows, sid, Fresh())
  {
    if sid in rows then (rows[sid], rows) else (Fresh(), Upsert(rows, sid, Fresh()))
  }

  /** A load after a save returns exactly what was saved and changes nothing. */
  lemma LoadAfterSave(rows: map<string, SessionRecord>, sid: string, rec: SessionRecord)
    ensures Lookup(Upsert(rows, sid, rec), sid) == (rec, Upsert(rows, sid, rec))
  {
  }

  /** Saving one session leaves what every other id loads unchanged. */
  lemma SaveIsolation(rows: map<string, SessionRecord>, sid: string, rec: SessionRecord, other: string)
    requires other != sid
    ensures Lookup(Upsert(rows, sid, rec), other).0 == Lookup(rows, other).0
  {
  }

  /** Loading twice is loading once: the second load finds the row the first one created. */
  lemma LoadIdempotent(rows: map<string, SessionRecord>, sid: string)
    ensures var (rec, rows') := Lookup(rows, sid); Lookup(rows', sid) == (rec, rows')
  {
  }

  /** The in-memory state of one session during a turn. */
  class SessionState {
    const sessionId: string
    var turns: int
    var category: Option<string>
    var collected: Dict<Value>
    var stepsAttempted: seq<string>

    /** The row this state is saved as. */
    function Record(): (r: SessionRecord)
      reads this
      ensures r.turns == turns && r.category == category
      ensures r.collected == collected && r.stepsAttempted == stepsAttempted
    {
      SessionRecord(turns, category, collected, stepsAttempted)
    }

    constructor (sid: string, rec: SessionRecord)
      ensures sessionId == sid && Record() == rec
    {
      sessionId := sid;
      turns := rec.turns;
      category := rec.category;
      collected := rec.collected;
      stepsAttempted := rec.stepsAttempted;
    }
  }

  /** The sessions table. */
  class SessionStore {
    var rows: map<string, SessionRecord>

    constructor ()
      ensures rows == map[]
    {
      rows := map[];
    }

    /** `new_session`: a fresh state under `sid` (a newly drawn UUID in the service), stored at once. */
    method NewSession(sid: string) returns (s: SessionState)
      modifies this
      ensures fresh(s) && s.sessionId == sid && s.Record() == Fresh()
      ensures rows == Upsert(old(rows), sid, Fresh())
    {
      s := new SessionState(sid, Fresh());
      SaveSession(s);
    }

    /** `load_session`: the stored state, or a fresh one created and stored under the requested id. */
    method LoadSession(sid: string) returns (s: SessionState)
      modifies this
      ensures fresh(s) && s.sessionId == sid
      ensures (s.Record(), rows) == Lookup(old(rows), sid)
    {
      if sid !in rows {
        s := new SessionState(sid, Fresh());
        SaveSession(s);
        return;
      }
      s := new SessionState(sid, rows[sid]);
    }

    /** `save_session`: replaces the row under the state's id (inserting it if absent). */
    method SaveSession(s: SessionState)
      modifies this
      ensures rows == Upsert(old(rows), s.sessionId, s.Record())
    {
      rows := Upsert(rows, s.sessionId, s.Record());
    }
  }
}
