/** The daily log of src/pages/CalendarPage.tsx: the `daily_logs` table, written with an upsert
    keyed on (user, calendar day); the page state around `handleSave` and `loadLogs`; and the
    day lookups behind the calendar tiles, the selected day's log and its appointments. */
module CalendarPage {
  import opened Wrappers
  import Arrays

  datatype Mood = Buena | Regular | Mala

  /** The dot colours of the calendar tiles. */
  datatype Color = Green | Yellow | Red

  /** `colors[log.mood]`: buena is green, regular yellow, mala red. */
  function MoodColor(m: Mood): (c: Color)
    ensures m == Buena <==> c == Green
    ensures m == Regular <==> c == Yellow
    ensures m == Mala <==> c == Red
  {
    match m
    case Buena => Green
    case Regular => Yellow
    case Mala => Red
  }

  const MillisPerDay: int := 86_400_000

  /** The calendar day (`yyyy-MM-dd`) of an instant given in milliseconds of local time. */
  function DayOf(t: int): (d: int)
    ensures d * MillisPerDay <= t < (d + 1) * MillisPerDay
  {
    t / MillisPerDay
  }

  /** A row of `daily_logs`. */
  datatype DailyLog = DailyLog(userId: string, date: int, mood: Mood, comment: string)

  /** A row of `appointments`; `at` is an instant with a time of day. */
  datatype Appointment = Appointment(userId: string, at: int, title: string, description: string)

  /** The `daily_logs` table: at most one entry per (user, day), which is the table's unique
      key and what the upsert's `onConflict: "user_id,date"` relies on. */
  datatype Entry = Entry(mood: Mood, comment: string)
  type Store = map<(string, int), Entry>

  function RowOf(store: Store, key: (string, int)): DailyLog
    requires key in store
  {
    DailyLog(key.0, key.1, store[key].mood, store[key].comment)
  }

  /** The table as a set of rows. */
  function Rows(store: Store): set<DailyLog>
  {
    set k | k in store :: RowOf(store, k)
  }

  /** `upsert([log], { onConflict: "user_id,date" })`. */
  function Upsert(store: Store, log: DailyLog): (r: Store)
    ensures r.Keys == store.Keys + {(log.userId, log.date)}
    ensures r[(log.userId, log.date)] == Entry(log.mood, log.comment)
    ensures forall k :: k in store && k != (log.userId, log.date) ==> r[k] == store[k]
  {
    store[(log.userId, log.date) := Entry(log.mood, log.comment)]
  }

  /** After an upsert the table holds exactly one row for the log's (user, day), the log
      itself, and every row for another (user, day) is as it was. */
  lemma UpsertOneRow(store: Store, log: DailyLog)
    ensures log in Rows(Upsert(store, log))
    ensures forall r :: r in Rows(Upsert(store, log)) && r.userId == log.userId && r.date == log.date
                        ==> r == log
    ensures forall r: DailyLog :: (r.userId, r.date) != (log.userId, log.date) ==>
                        (r in Rows(Upsert(store, log)) <==> r in Rows(store))
  {
    var s := Upsert(store, log);
    var key := (log.userId, log.date);
    assert RowOf(s, key) == log;
    forall r: DailyLog | (r.userId, r.date) != key
      ensures r in Rows(s) <==> r in Rows(store)
    {
      if r in Rows(s) {
        var k :| k in s && RowOf(s, k) == r;
        assert k == (r.userId, r.date);
        assert RowOf(store, k) == r;
      }
      if r in Rows(store) {
        var k :| k in store && RowOf(store, k) == r;
        assert k == (r.userId, r.date);
        assert RowOf(s, k) == r;
      }
    }
  }

  /** Two saves for the same user and day leave only the second. */
  lemma UpsertSameDayOverwrites(store: Store, first: DailyLog, second: DailyLog)
    requires first.userId == second.userId && first.date == second.date
    ensures Upsert(Upsert(store, first), second) == Upsert(store, second)
  {
  }

  /** The smallest element of a non-empty set of days. */
  lemma {:induction false} LeastExists(s: set<int>)
    requires s != {}
    ensures exists m :: m in s && forall x :: x in s ==> m <= x
  {
    assert exists y :: y in s by {
      if forall y :: y !in s {
        assert false;
      }
    }
    var y :| y in s;
    if s == {y} {
      assert forall x :: x in s ==> y <= x;
    } else {
      LeastExists(s - {y});
      var m :| m in s - {y} && forall x :: x in s - {y} ==> m <= x;
      var least := if y < m then y else m;
      forall x | x in s ensures least <= x {
        if x != y {
          assert x in s - {y};
        }
      }
      assert least in s;
    }
  }

  function Least(s: set<int>): (m: int)
    requires s != {}
    ensures m in s && forall x :: x in s ==> m <= x
  {
    LeastExists(s);
    var m :| m in s && forall x :: x in s ==> m <= x;
    m
  }

  /** A set of days in ascending order. */
  function SortedDays(s: set<int>): (r: seq<int>)
    ensures forall d :: d in r <==> d in s
    ensures forall i, j :: 0 <= i < j < |r| ==> r[i] < r[j]
  {
    if s == {} then []
    else
      var d := Least(s);
      [d] + SortedDays(s - {d})
  }

  /** The days on which `user` has a row. */
  function DaysOf(store: Store, user: string): set<int>
  {
    set k | k in store && k.0 == user :: k.1
  }

  /** `select("*").eq("user_id", uid).order("date", { ascending: true })` on `daily_logs`:
      the user's rows, each once, by ascending day. */
  function QueryLogs(store: Store, user: string): (r: seq<DailyLog>)
    ensures forall l :: l in r <==> l in Rows(store) && l.userId == user
    ensures forall i, j :: 0 <= i < j < |r| ==> r[i].date < r[j].date
  {
    var days := SortedDays(DaysOf(store, user));
    assert forall d :: d in days ==> (user, d) in store;
    var r := seq(|days|, i requires 0 <= i < |days| => RowOf(store, (user, days[i])));
    assert forall l :: l in Rows(store) && l.userId == user ==> l in r by {
      forall l | l in Rows(store) && l.userId == user ensures l in r {
        var k :| k in store && RowOf(store, k) == l;
        assert k.1 in days;
        var i :| 0 <= i < |days| && days[i] == k.1;
        assert r[i] == l;
      }
    }
    r
  }

  /** Whether a log is for the given day. */
  function OnDay(day: int): DailyLog -> bool
  {
    (l: DailyLog) => l.date == day
  }

  /** `logs.find(log => isSameDay(new Date(log.date), date))`. */
  function LogOn(logs: seq<DailyLog>, date: int): (r: Option<DailyLog>)
    ensures r.None? <==> forall i :: 0 <= i < |logs| ==> logs[i].date != DayOf(date)
    ensures r.Some? ==> r.value in logs && r.value.date == DayOf(date)
  {
    Arrays.Find(OnDay(DayOf(date)), logs)
  }

  /** `tileContent({date})`: the colour of the mood of the first log of that day, if any. */
  function TileContent(logs: seq<DailyLog>, date: int): (c: Option<Color>)
    ensures c.Some? <==> exists i :: 0 <= i < |logs| && logs[i].date == DayOf(date)
    ensures c.Some? ==>
      exists i :: 0 <= i < |logs| && logs[i].date == DayOf(date) && c.value == MoodColor(logs[i].mood)
  {
    match LogOn(logs, date)
    case None => None
    case Some(log) => Some(MoodColor(log.mood))
  }

  /** The day lookups: a tile has a dot, and `selectedLog` a value, exactly when some log is
      for that day; the log is the first such in list order and the dot has its mood's colour. */
  lemma LogOnSpec(logs: seq<DailyLog>, date: int)
    ensures LogOn(logs, date).None? <==> forall i :: 0 <= i < |logs| ==> logs[i].date != DayOf(date)
    ensures LogOn(logs, date).Some? ==>
      exists i :: 0 <= i < |logs| && logs[i] == LogOn(logs, date).value && logs[i].date == DayOf(date) &&
        forall j :: 0 <= j < i ==> logs[j].date != DayOf(date)
    ensures TileContent(logs, date).None? <==> LogOn(logs, date).None?
    ensures LogOn(logs, date).Some? ==> TileContent(logs, date) == Some(MoodColor(LogOn(logs, date).value.mood))
    ensures var sameDay := Arrays.Filter(OnDay(DayOf(date)), logs);
      LogOn(logs, date) == if sameDay == [] then None else Some(sameDay[0])
  {
    Arrays.FindIsFirstOfFilter(OnDay(DayOf(date)), logs);
  }

  /** `isSameDay(new Date(log.date), date)` as written, for a time zone `offset` milliseconds
      ahead of UTC: `new Date("yyyy-MM-dd")` is midnight UTC of that day, which is the local
      instant `day * MillisPerDay + offset`, and `isSameDay` compares local days. */
  function OnDayAsWritten(day: int, offset: int): (p: DailyLog -> bool)
    ensures 0 <= offset < MillisPerDay ==> forall l :: p(l) <==> l.date == day
  {
    (l: DailyLog) => DayOf(l.date * MillisPerDay + offset) == day
  }

  /** West of UTC every log matches the day before its own; at or east of UTC (less than a
      day ahead) it matches its own day. */
  lemma OnDayAsWrittenShift(day: int, offset: int, l: DailyLog)
    requires -MillisPerDay < offset < MillisPerDay
    ensures offset < 0 ==> (OnDayAsWritten(day, offset)(l) <==> l.date == day + 1)
    ensures offset >= 0 ==> (OnDayAsWritten(day, offset)(l) <==> l.date == day)
  {
    var d := DayOf(l.date * MillisPerDay + offset);
    if offset < 0 {
      assert d == l.date - 1;
    } else {
      assert d == l.date;
    }
  }

  /** As written, west of UTC a log just saved is not what the page finds for its own day. */
  lemma SavedLogMissedAsWritten(store: Store, log: DailyLog, offset: int)
    requires -MillisPerDay < offset < 0
    ensures Arrays.Find(OnDayAsWritten(log.date, offset), QueryLogs(Upsert(store, log), log.userId))
            != Some(log)
  {
    OnDayAsWrittenShift(log.date, offset, log);
  }

  /** `appointments.filter(a => isSameDay(new Date(a.date), selectedDate))`. */
  function DailyAppointments(appointments: seq<Appointment>, date: int): (r: seq<Appointment>)
    ensures |r| <= |appointments|
    ensures forall a :: a in r <==> a in appointments && DayOf(a.at) == DayOf(date)
  {
    Arrays.Filter(SameDayAs(date), appointments)
  }

  function SameDayAs(date: int): Appointment -> bool
  {
    (a: Appointment) => DayOf(a.at) == DayOf(date)
  }

  /** The selected day's appointments are exactly those on that day, in list order. */
  lemma DailyAppointmentsSelects(appointments: seq<Appointment>, date: int)
    ensures var ix := Arrays.Positions(SameDayAs(date), appointments);
      && |DailyAppointments(appointments, date)| == |ix|
      && (forall k :: 0 <= k < |ix| ==>
            ix[k] < |appointments| && DailyAppointments(appointments, date)[k] == appointments[ix[k]])
      && (forall k1, k2 :: 0 <= k1 < k2 < |ix| ==> ix[k1] < ix[k2])
      && (forall i :: 0 <= i < |appointments| ==>
            (DayOf(appointments[i].at) == DayOf(date) <==> i in ix))
  {
    Arrays.FilterSelects(SameDayAs(date), appointments);
    var ix := Arrays.Positions(SameDayAs(date), appointments);
    forall i | 0 <= i < |appointments| && i in ix ensures DayOf(appointments[i].at) == DayOf(date) {
      var k :| 0 <= k < |ix| && ix[k] == i;
      assert SameDayAs(date)(appointments[ix[k]]);
    }
  }

  /** After a save and a reload, the saved log is the one found for its day. */
  lemma {:induction false} SavedLogIsFound(store: Store, log: DailyLog)
    ensures Arrays.Find(OnDay(log.date), QueryLogs(Upsert(store, log), log.userId)) == Some(log)
  {
    var s := Upsert(store, log);
    var r := QueryLogs(s, log.userId);
    UpsertOneRow(store, log);
    assert log in r;
    var i :| 0 <= i < |r| && r[i] == log;
    assert OnDay(log.date)(r[i]);
    var found := Arrays.Find(OnDay(log.date), r);
    assert found.Some?;
    var j :| 0 <= j < |r| && r[j] == found.value && OnDay(log.date)(r[j]);
    assert r[j] in Rows(s) && r[j].userId == log.userId && r[j].date == log.date;
  }

  /** What `handleSave` reports. */
  datatype SaveOutcome = Rejected | Failed | Saved

  /** The page's state; `store` stands for the remote `daily_logs` table. */
  class CalendarPage {
    var userId: Option<string>
    var store: Store
    var logs: seq<DailyLog>
    var appointments: seq<Appointment>
    var selectedDate: int
    var comment: string
    var mood: Option<Mood>
    var loading: bool
    var saving: bool

    constructor(table: Store, now: int)
      ensures userId == None && store == table && logs == [] && appointments == []
      ensures selectedDate == now && comment == "" && mood == None && loading && !saving
    {
      userId, store, logs, appointments := None, table, [], [];
      selectedDate, comment, mood := now, "", None;
      loading, saving := true, false;
    }

    /** `loadLogs(uid)`: replaces `logs` with the user's rows when the query returns data
        (`readOk`), and leaves them when it does not. */
    method LoadLogs(uid: string, readOk: bool)
      modifies this`logs
      ensures logs == if readOk then QueryLogs(store, uid) else old(logs)
    {
      if readOk {
        logs := QueryLogs(store, uid);
      }
    }

    /** `loadAppointments(uid)`: `reply` is what the appointments query returned. */
    method LoadAppointments(reply: Option<seq<Appointment>>)
      modifies this`appointments
      ensures appointments == if reply.Some? then reply.value else old(appointments)
    {
      if reply.Some? {
        appointments := reply.value;
      }
    }

    /** The mount effect: nothing without an authenticated user or without their `users`
        row; otherwise the user id is set, logs and appointments are loaded, loading ends. */
    method LoadUserAndData(authUser: Option<string>, userRow: Option<string>,
                           logsOk: bool, appointmentsReply: Option<seq<Appointment>>)
      modifies this`userId, this`logs, this`appointments, this`loading
      ensures authUser.None? || userRow.None? ==> unchanged(this)
      ensures authUser.Some? && userRow.Some? ==>
        && userId == userRow
        && logs == (if logsOk then QueryLogs(store, userRow.value) else old(logs))
        && appointments == (if appointmentsReply.Some? then appointmentsReply.value else old(appointments))
        && !loading
    {
      if authUser.None? || userRow.None? {
        return;
      }
      userId := userRow;
      LoadLogs(userRow.value, logsOk);
      LoadAppointments(appointmentsReply);
      loading := false;
    }

    /** The selection and input handlers. */
    method SelectDate(date: int)
      modifies this`selectedDate
      ensures selectedDate == date
    {
      selectedDate := date;
    }

    method ChooseMood(m: Mood)
      modifies this`mood
      ensures mood == Some(m)
    {
      mood := Some(m);
    }

    method EditComment(text: string)
      modifies this`comment
      ensures comment == text
    {
      comment := text;
    }

    /** `handleSave` up to its `await`: rejected, changing nothing, without a user id or a
        mood; otherwise `saving` is set and the row to write, keyed on the selected day, is
        returned. */
    method BeginSave() returns (pending: Option<DailyLog>)
      modifies this`saving
      ensures (userId.None? || userId.value == "" || mood.None?) ==> pending.None? && unchanged(this)
      ensures !(userId.None? || userId.value == "" || mood.None?) ==>
        pending == Some(DailyLog(userId.value, DayOf(selectedDate), mood.value, comment)) && saving
    {
      if userId.None? || userId.value == "" || mood.None? {
        return None;
      }
      saving := true;
      pending := Some(DailyLog(userId.value, DayOf(selectedDate), mood.value, comment));
    }

    /** `handleSave` after its `await`: the upsert of `log` succeeded (`writeOk`) or failed.
        On success the table holds `log` under its (user, day), the logs are reloaded (if the
        reload returns data) and mood and comment are cleared; on failure nothing but
        `saving` changes. Either way `saving` ends. */
    method FinishSave(log: DailyLog, writeOk: bool, readOk: bool)
      modifies this`store, this`logs, this`mood, this`comment, this`saving
      ensures store == if writeOk then Upsert(old(store), log) else old(store)
      ensures logs == if writeOk && readOk then QueryLogs(store, log.userId) else old(logs)
      ensures mood == (if writeOk then None else old(mood))
      ensures comment == (if writeOk then "" else old(comment))
      ensures !saving
    {
      if writeOk {
        store := Upsert(store, log);
        LoadLogs(log.userId, readOk);
        comment := "";
        mood := None;
      }
      saving := false;
    }

    /** `handleSave` without interleaving: the guard, the upsert, the reload, the reset. */
    method HandleSave(writeOk: bool, readOk: bool) returns (outcome: SaveOutcome)
      modifies this`store, this`logs, this`mood, this`comment, this`saving
      ensures (old(userId).None? || old(userId).value == "" || old(mood).None?) ==>
        outcome == Rejected && unchanged(this)
      ensures !(old(userId).None? || old(userId).value == "" || old(mood).None?) ==>
        var log := DailyLog(old(userId).value, DayOf(old(selectedDate)), old(mood).value, old(comment));
        && outcome == (if writeOk then Saved else Failed)
        && store == (if writeOk then Upsert(old(store), log) else old(store))
        && logs == (if writeOk && readOk then QueryLogs(store, log.userId) else old(logs))
        && (writeOk ==> mood == None && comment == "")
        && (!writeOk ==> mood == old(mood) && comment == old(comment))
        && !saving
        && (writeOk && readOk ==> LogOn(logs, selectedDate) == Some(log))
    {
      var pending := BeginSave();
      if pending.None? {
        return Rejected;
      }
      FinishSave(pending.value, writeOk, readOk);
      outcome := if writeOk then Saved else Failed;
      if writeOk && readOk {
        SavedLogIsFound(old(store), pending.value);
      }
    }
  }
}
