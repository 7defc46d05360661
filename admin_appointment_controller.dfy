/** src/controllers/adminAppointmentController.js: the administrators'
    appointment search with its numbered placeholders, sort whitelists and
    paging, and their status update restricted to three statuses. */
module AdminAppointmentController {
  import opened Js
  import opened Schema
  import opened QueryText
  import DoctorController

  // ---------------------------------------------------------------------
  // searchAppointments

  /** The query string; every field may be absent. */
  datatype SearchFilters = SearchFilters(
    search: Option<string>,
    status: Option<string>,
    date: Option<string>,
    doctorId: Option<string>,
    page: Option<string>,
    limit: Option<string>,
    sortBy: Option<string>,
    sortOrder: Option<string>)

  /** `status && status !== 'all'` */
  predicate StatusFilterOn(f: SearchFilters) {
    Truthy(f.status) && f.status.value != "all"
  }

  /** The parameters the four optional filters push, in the order the handler
      pushes them: the search pattern, the status, the date, the doctor id. */
  function FilterParams(f: SearchFilters): seq<SqlValue> {
    (if Truthy(f.search) then [SqlText(LikePattern(f.search.value))] else [])
    + (if StatusFilterOn(f) then [SqlText(f.status.value)] else [])
    + (if Truthy(f.date) then [SqlText(f.date.value)] else [])
    + (if Truthy(f.doctorId) then [SqlText(f.doctorId.value)] else [])
  }

  /** One parameter per active filter; the first is the search pattern when
      there is a search, and the last the doctor id when one is given. */
  lemma FilterParamsShape(f: SearchFilters)
    ensures |FilterParams(f)| ==
      (if Truthy(f.search) then 1 else 0) + (if StatusFilterOn(f) then 1 else 0)
      + (if Truthy(f.date) then 1 else 0) + (if Truthy(f.doctorId) then 1 else 0)
    ensures Truthy(f.search) ==> FilterParams(f)[0] == SqlText(LikePattern(f.search.value))
    ensures Truthy(f.doctorId) ==> FilterParams(f)[|FilterParams(f)| - 1] == SqlText(f.doctorId.value)
    ensures !Truthy(f.search) && !StatusFilterOn(f) && !Truthy(f.date) && !Truthy(f.doctorId) ==> FilterParams(f) == []
  {
  }

  /** The search clause: the one pattern, placeholder `n`, matched against three columns. */
  function SearchClause(n: nat, pattern: SqlValue): (r: seq<Piece>)
    ensures forall i :: 0 <= i < |r| && r[i].Param? ==> r[i] == Param(n, pattern)
  {
    [Sql(" AND (u.name ILIKE "), Param(n, pattern), Sql(" OR du.name ILIKE "), Param(n, pattern),
     Sql(" OR a.appointment_type ILIKE "), Param(n, pattern), Sql(")")]
  }

  /** A clause comparing one column with placeholder `n`. */
  function EqualsClause(column: string, n: nat, v: SqlValue): (r: seq<Piece>)
    ensures forall i :: 0 <= i < |r| && r[i].Param? ==> r[i] == Param(n, v)
  {
    [Sql(column), Param(n, v)]
  }

  /** Appends one clause whose placeholders are the next number, pushing its value. */
  method AddFilter(conditions: seq<Piece>, params: seq<SqlValue>, paramCount: nat, clause: seq<Piece>, v: SqlValue)
      returns (conditions': seq<Piece>, params': seq<SqlValue>, paramCount': nat)
    requires paramCount == |params| + 1
    requires PlaceholdersBound(conditions, params)
    requires forall i :: 0 <= i < |clause| && clause[i].Param? ==> clause[i] == Param(paramCount, v)
    ensures conditions' == conditions + clause && params' == params + [v]
    ensures paramCount' == |params'| + 1
    ensures PlaceholdersBound(conditions', params')
  {
    BoundExtends(conditions, params, [v]);
    params' := params + [v];
    BoundAppend(conditions, clause, params');
    conditions' := conditions + clause;
    paramCount' := paramCount + 1;
  }

  /** The WHERE clause: `paramCount` starts at 1 and each active filter writes
      `$paramCount`, pushes its value and increments it, so that every
      placeholder names the value it was written for. */
  method SearchConditions(f: SearchFilters) returns (conditions: seq<Piece>, params: seq<SqlValue>, paramCount: nat)
    ensures params == FilterParams(f)
    ensures paramCount == |params| + 1
    ensures PlaceholdersBound(conditions, params)
  {
    conditions := [Sql(" WHERE 1=1")];
    params := [];
    paramCount := 1;
    if Truthy(f.search) {
      var pattern := SqlText(LikePattern(f.search.value));
      conditions, params, paramCount := AddFilter(conditions, params, paramCount,
        SearchClause(paramCount, pattern), pattern);
    }
    ghost var afterSearch := if Truthy(f.search) then [SqlText(LikePattern(f.search.value))] else [];
    assert params == afterSearch;
    if StatusFilterOn(f) {
      var status := SqlText(f.status.value);
      conditions, params, paramCount := AddFilter(conditions, params, paramCount,
        EqualsClause(" AND a.status = ", paramCount, status), status);
    }
    ghost var afterStatus := afterSearch + (if StatusFilterOn(f) then [SqlText(f.status.value)] else []);
    assert params == afterStatus;
    if Truthy(f.date) {
      var date := SqlText(f.date.value);
      conditions, params, paramCount := AddFilter(conditions, params, paramCount,
        EqualsClause(" AND DATE(a.appointment_date) = ", paramCount, date), date);
    }
    ghost var afterDate := afterStatus + (if Truthy(f.date) then [SqlText(f.date.value)] else []);
    assert params == afterDate;
    if Truthy(f.doctorId) {
      var doctor := SqlText(f.doctorId.value);
      conditions, params, paramCount := AddFilter(conditions, params, paramCount,
        EqualsClause(" AND a.doctor_id = ", paramCount, doctor), doctor);
    }
  }

  const SortColumns: seq<string> := ["appointment_date", "status", "appointment_type"]
  const SortOrders: seq<string> := ["asc", "desc"]

  /** The column is kept only when it is on the whitelist; the default is `appointment_date`. */
  function FinalSortBy(sortBy: Option<string>): (r: string)
    ensures r in SortColumns
    ensures sortBy.Some? && sortBy.value in SortColumns ==> r == sortBy.value
    ensures (sortBy.None? || sortBy.value !in SortColumns) ==> r == "appointment_date"
  {
    var s := if sortBy.Some? then sortBy.value else "appointment_date";
    if s in SortColumns then s else "appointment_date"
  }

  /** The order is kept, in its original case, when its lower case is `asc` or
      `desc`; the default is `desc`. */
  function FinalSortOrder(sortOrder: Option<string>): (r: string)
    ensures ToLowerAscii(r) in SortOrders
    ensures sortOrder.Some? && ToLowerAscii(sortOrder.value) in SortOrders ==> r == sortOrder.value
    ensures sortOrder.Some? && ToLowerAscii(sortOrder.value) !in SortOrders ==> r == "desc"
    ensures sortOrder.None? ==> r == "desc"
  {
    var s := if sortOrder.Some? then sortOrder.value else "desc";
    assert ToLowerAscii("desc") == "desc";
    if ToLowerAscii(s) in SortOrders then s else "desc"
  }

  datatype SearchPage = SearchPage(
    query: seq<Piece>,
    params: seq<SqlValue>,
    countQuery: seq<Piece>,
    countParams: seq<SqlValue>,
    total: nat,
    totalPages: Option<int>,
    currentPage: Option<int>)

  /** GET /admin/appointments: the row query with its ORDER BY, LIMIT and
      OFFSET, the count query sent with `params.slice(0, -2)`, and, given the
      `total` of matching rows that the corrected count query returns (see
      `CountQueryCorrected`), the paging reply. */
  method SearchAppointments(f: SearchFilters, total: nat) returns (page: SearchPage)
    ensures var conditions := page.countQuery;
      var n := |page.countParams|;
      var limit := ValueOr(f.limit, 10);
      var offset := SqlNumber(Offset(NumberOr(f.page, 1), NumberOr(f.limit, 10)));
      && page.countParams == FilterParams(f)
      && page.params == page.countParams + [limit, offset]
      && page.countParams == page.params[..|page.params| - 2]
      && PlaceholdersBound(page.countQuery, page.countParams)
      && PlaceholdersBound(page.query, page.params)
      && page.query == conditions
         + [Sql(" ORDER BY a." + FinalSortBy(f.sortBy) + " " + FinalSortOrder(f.sortOrder) + " LIMIT "),
            Param(n + 1, limit), Sql(" OFFSET "), Param(n + 2, offset)]
      && page.total == total
      && page.totalPages == TotalPages(total, NumberOr(f.limit, 10))
      && page.currentPage == DoctorController.CurrentPage(f.page)
  {
    var conditions, params, paramCount := SearchConditions(f);
    var order := Sql(" ORDER BY a." + FinalSortBy(f.sortBy) + " " + FinalSortOrder(f.sortOrder) + " LIMIT ");
    var limit := ValueOr(f.limit, 10);
    var offset := SqlNumber(Offset(NumberOr(f.page, 1), NumberOr(f.limit, 10)));
    var tail := [order, Param(paramCount, limit), Sql(" OFFSET "), Param(paramCount + 1, offset)];
    var countParams := params;
    BoundExtends(conditions, params, [limit, offset]);
    params := params + [limit, offset];
    BoundAppend(conditions, tail, params);
    assert params[..|params| - 2] == countParams;
    page := SearchPage(conditions + tail, params, conditions, countParams, total,
      TotalPages(total, NumberOr(f.limit, 10)), DoctorController.CurrentPage(f.page));
  }

  // ---------------------------------------------------------------------
  // The count query

  /** What `parseInt(countResult.rows[0].count)` gives: a TypeError, answered
      with 500, when the count query returned no row, and otherwise the number
      in the first row's `count` column, NaN when the row has none. */
  datatype CountRead = CountThrows | Total(n: Number)

  /** The replacement the handler writes over the row query's select list. */
  const CountSelect: string := "SELECT COUNT(*) FROM"

  /** Reading the total from what `countQuery` returns when `matching` rows
      pass the filters. A query whose select list, after `lead`, is `COUNT(*)`
      returns one row whose `count` is that number; any other text is still
      the row query and returns the matching rows, which have no `count`. */
  function ReadTotal(countQuery: string, lead: string, matching: nat): (r: CountRead)
    ensures OccursAt(countQuery, CountSelect, |lead|) ==> r == Total(Num(matching))
    ensures !OccursAt(countQuery, CountSelect, |lead|) ==>
      (r == CountThrows <==> matching == 0) && (r.Total? ==> r.n.NaN?)
  {
    if OccursAt(countQuery, CountSelect, |lead|) then Total(Num(matching))
    else if matching == 0 then CountThrows
    else Total(NaN)
  }

  /** The count query as written. The row query is `lead`, then `SELECT`, a
      space and a line break, then the column list, the joins, the filters,
      the ORDER BY and the paging, in which `SELECT ` does not occur again;
      `/SELECT .*? FROM/` has no `s` flag, so its `.` cannot cross that line
      break, nothing matches, and the count query is the row query itself. Reading `count` from its rows then gives NaN,
      which the reply writes as a null total and a null page count, or throws
      when no appointment matches; never the number of matching rows. */
  lemma CountQueryAsWritten(lead: string, rest: string, matching: nat)
    requires 'S' !in lead && !Contains(rest, "SELECT ")
    ensures var head := lead + "SELECT \n" + rest;
      var countQuery := ReplaceFirst(head, "SELECT ", " FROM", false, CountSelect);
      && countQuery == head
      && ReadTotal(countQuery, lead, matching) == (if matching == 0 then CountThrows else Total(NaN))
  {
    var head := lead + "SELECT \n" + rest;
    assert head == lead + "SELECT " + "\n" + rest;
    RewriteMissesLineBreak(lead, "SELECT ", rest, " FROM", CountSelect);
    assert head[|lead| + 7] == '\n' != CountSelect[7];
    MismatchNoOccurrence(head, CountSelect, |lead|, 7);
  }

  /** The count query with the `s` flag, as the doctor listing writes its own:
      the select list, however many lines it spans, up to the first ` FROM`
      becomes `COUNT(*)`, and the total read back is the number of matching
      rows. */
  lemma CountQueryCorrected(lead: string, cols: string, rest: string, matching: nat)
    requires 'S' !in lead
    requires forall k :: 0 <= k < |cols| ==> !OccursAt(cols + " FROM", " FROM", k)
    ensures var countQuery := ReplaceFirst(lead + "SELECT " + cols + " FROM" + rest, "SELECT ", " FROM", true, CountSelect);
      && countQuery == lead + CountSelect + rest
      && ReadTotal(countQuery, lead, matching) == Total(Num(matching))
  {
    RewriteFindsFirstClose(lead, "SELECT ", cols, " FROM", rest, CountSelect);
    var countQuery := lead + CountSelect + rest;
    assert countQuery[|lead|..|lead| + |CountSelect|] == CountSelect;
  }

  // ---------------------------------------------------------------------
  // updateAppointmentStatus in adminAppointmentController.js

  /** The administrators' whitelist: no `completed`, no `rejected`. */
  predicate ConsoleStatus(status: Option<string>) {
    status == Some("pending") || status == Some("confirmed") || status == Some("cancelled")
  }

  datatype ConsoleReply =
    | ConsoleInvalidStatus   // 400 "Invalid status"
    | ConsoleFailed          // the id is not an integer and the query fails: 500
    | ConsoleNotFound        // 404 "Appointment not found"
    | ConsoleUpdated

  /** The status is written without touching `updated_at`. */
  function ConsoleUpdate(t: Tables, idText: string, status: Option<string>): Handled<ConsoleReply> {
    if !ConsoleStatus(status) then Handled(ConsoleInvalidStatus, t)
    else
      var id := ParseInt(idText);
      if id.None? then Handled(ConsoleFailed, t)
      else if !HasAppointment(t.appointments, id.value) then Handled(ConsoleNotFound, t)
      else Handled(ConsoleUpdated, t.(appointments := SetStatus(t.appointments, id.value, status.value, None)))
  }

  method ConsoleUpdateHandler(db: Database, idText: string, status: Option<string>) returns (reply: ConsoleReply)
    modifies db
    ensures Handled(reply, db.Snapshot()) == ConsoleUpdate(old(db.Snapshot()), idText, status)
  {
    if !ConsoleStatus(status) {
      return ConsoleInvalidStatus;
    }
    var id := ParseInt(idText);
    if id.None? {
      return ConsoleFailed;
    }
    var found := db.UpdateStatus(id.value, status.value, None);
    if !found {
      return ConsoleNotFound;
    }
    reply := ConsoleUpdated;
  }

  /** Which reply an update gets, and what it writes: the updated row carries
      the new status and its old `updatedAt`, every other row is unchanged. */
  lemma ConsoleReplies(t: Tables, idText: string, status: Option<string>)
    ensures var h := ConsoleUpdate(t, idText, status);
      && (h.reply == ConsoleInvalidStatus <==> !ConsoleStatus(status))
      && (h.reply == ConsoleUpdated <==>
            ConsoleStatus(status) && ParseInt(idText).Some? && HasAppointment(t.appointments, ParseInt(idText).value))
      && (!h.reply.ConsoleUpdated? ==> h.tables == t)
      && (h.reply.ConsoleUpdated? ==>
            |h.tables.appointments| == |t.appointments|
            && forall i :: 0 <= i < |t.appointments| ==>
                 var before := t.appointments[i];
                 var after := h.tables.appointments[i];
                 && after.updatedAt == before.updatedAt
                 && after.status == (if before.id == ParseInt(idText).value then status.value else before.status))
  {
  }

  /** The console never moves an appointment to `completed`: every completed
      row after an update was already there, so the console alone cannot make
      a patient eligible to review. */
  lemma ConsoleNeverCompletes(t: Tables, idText: string, status: Option<string>)
    ensures var after := ConsoleUpdate(t, idText, status).tables;
      forall a :: a in after.appointments && a.status == "completed" ==> a in t.appointments
  {
    var h := ConsoleUpdate(t, idText, status);
    if h.reply.ConsoleUpdated? {
      forall a | a in h.tables.appointments && a.status == "completed"
        ensures a in t.appointments
      {
        var i :| 0 <= i < |h.tables.appointments| && h.tables.appointments[i] == a;
        assert a == t.appointments[i];
      }
    }
  }
}
