/** The activities router: the codec between the stored comma-separated
    day string and the list the API shows, and the create, partial update
    and soft delete of an activity row. The activities table is a map from
    id to row; the active categories are the set of their ids. */
module Activities {
  import opened Common

  /** A stored activity row; daysOfWeek is the comma-separated text or NULL. */
  datatype ActivityRow = ActivityRow(
    id: int,
    name: string,
    points: int,
    isActive: bool,
    daysOfWeek: Option<string>,
    categoryId: Option<int>)

  /** The activity as the API returns it, days as a list or None. */
  datatype ActivityView = ActivityView(
    id: int,
    name: string,
    points: int,
    isActive: bool,
    daysOfWeek: Option<seq<string>>,
    categoryId: Option<int>)

  /** The fields a create request carries; points default to 10 and the
      day list to None (every day). */
  datatype ActivityCreate = ActivityCreate(
    name: string,
    points: int,
    daysOfWeek: Option<seq<string>>,
    categoryId: Option<int>)

  /** An update request: None marks a field that was not supplied. */
  datatype ActivityUpdate = ActivityUpdate(
    name: Option<string>,
    points: Option<int>,
    daysOfWeek: Option<seq<string>>,
    categoryId: Option<int>)

  // ---------------------------------------------------------------------
  // The day-list codec

  /** The stored day text as the API shows it: a non-empty string becomes
      its comma-split list, an empty string or NULL becomes None. */
  function StoredDays(s: Option<string>): (r: Option<seq<string>>)
    ensures r.None? <==> s.None? || s == Some("")
    ensures r.Some? ==> |r.value| >= 1 && CommaFree(r.value) && Join(r.value) == s.value
  {
    if s.Some? && s.value != "" then
      JoinSplit(s.value);
      Some(Split(s.value))
    else None
  }

  /** row_to_activity: the row's fields as they are, the day text as a
      list; writing that list back gives the stored text again. */
  function RowToActivity(row: ActivityRow): (v: ActivityView)
    ensures v.id == row.id && v.name == row.name && v.points == row.points
    ensures v.isActive == row.isActive && v.categoryId == row.categoryId
    ensures v.daysOfWeek.None? <==> row.daysOfWeek.None? || row.daysOfWeek == Some("")
    ensures v.daysOfWeek.Some? ==> DaysToString(v.daysOfWeek) == row.daysOfWeek
  {
    ActivityView(row.id, row.name, row.points, row.isActive, StoredDays(row.daysOfWeek), row.categoryId)
  }

  /** days_to_string: None and the empty list both become NULL, any other
      list its entries joined with commas. */
  function DaysToString(days: Option<seq<string>>): (r: Option<string>)
    ensures r.None? <==> days.None? || days == Some([])
  {
    if days.None? || |days.value| == 0 then None else Some(Join(days.value))
  }

  /** A day list survives being stored and read back exactly when it is
      non-empty, its entries hold no comma, and it is not the one empty
      name (which joins to the empty string, read back as None). */
  lemma DaysRoundTrip(days: seq<string>)
    ensures StoredDays(DaysToString(Some(days))) == Some(days)
      <==> |days| >= 1 && CommaFree(days) && days != [""]
  {
    if |days| >= 1 && CommaFree(days) && days != [""] {
      SplitJoin(days);
      assert Split("") == [""];
    } else if |days| >= 1 && !CommaFree(days) && StoredDays(DaysToString(Some(days))).Some? {
      assert StoredDays(DaysToString(Some(days))).value != days;
    } else if days == [""] {
      assert Join(days) == "";
    }
  }

  /** Reading a stored text and writing the list back gives the same text,
      except that the empty string is normalised to NULL. */
  lemma StoredRoundTrip(s: Option<string>)
    ensures DaysToString(StoredDays(s)) == (if s == Some("") then None else s)
  {
    if s.Some? && s.value != "" {
      JoinSplit(s.value);
    }
  }

  // ---------------------------------------------------------------------
  // Create, update, delete

  /** Whether a supplied category id names an active category. */
  predicate CategoryOk(cat: Option<int>, activeCategories: set<int>)
  {
    cat.None? || cat.value in activeCategories
  }

  /** create_activity: 400 when a supplied category is not active; else a
      new active row under the id the store assigns. */
  function CreateActivity(table: map<int, ActivityRow>, activeCategories: set<int>, newId: int, req: ActivityCreate)
    : (r: Result<(map<int, ActivityRow>, ActivityView)>)
    requires newId !in table
    ensures r.Failure? <==> !CategoryOk(req.categoryId, activeCategories)
    ensures r.Failure? ==> r.status == 400
    ensures r.Ok? ==>
      && r.value.0.Keys == table.Keys + {newId}
      && (forall id :: id in table ==> r.value.0[id] == table[id])
      && r.value.0[newId].isActive
      && r.value.1 == RowToActivity(r.value.0[newId])
      && r.value.1.name == req.name && r.value.1.points == req.points && r.value.1.categoryId == req.categoryId
    ensures r.Ok? ==>
      r.value.0[newId] == ActivityRow(newId, req.name, req.points, true, DaysToString(req.daysOfWeek), req.categoryId)
    ensures r.Ok? && req.daysOfWeek.Some? && |req.daysOfWeek.value| >= 1 && CommaFree(req.daysOfWeek.value) && req.daysOfWeek.value != [""] ==>
      r.value.1.daysOfWeek == req.daysOfWeek
    ensures r.Ok? && (req.daysOfWeek.None? || req.daysOfWeek == Some([])) ==> r.value.1.daysOfWeek.None?
  {
    if !CategoryOk(req.categoryId, activeCategories) then Failure(400)
    else
      var row := ActivityRow(newId, req.name, req.points, true, DaysToString(req.daysOfWeek), req.categoryId);
      if req.daysOfWeek.Some? then
        DaysRoundTrip(req.daysOfWeek.value);
        Ok((table[newId := row], RowToActivity(row)))
      else
        Ok((table[newId := row], RowToActivity(row)))
  }

  /** An activity that update and delete can see: present and active. */
  predicate Visible(table: map<int, ActivityRow>, id: int)
  {
    id in table && table[id].isActive
  }

  /** The row with the supplied fields written over it; a supplied day
      list is stored as its text, the empty list as NULL. */
  function Patched(row: ActivityRow, upd: ActivityUpdate): (r: ActivityRow)
    ensures r.id == row.id && r.isActive == row.isActive
    ensures upd == ActivityUpdate(None, None, None, None) ==> r == row
    ensures upd.name.Some? ==> r.name == upd.name.value
    ensures upd.points.Some? ==> r.points == upd.points.value
    ensures upd.daysOfWeek.Some? ==> (r.daysOfWeek.None? <==> upd.daysOfWeek.value == [])
    ensures upd.categoryId.Some? ==> r.categoryId == upd.categoryId
  {
    row.(
      name := if upd.name.Some? then upd.name.value else row.name,
      points := if upd.points.Some? then upd.points.value else row.points,
      daysOfWeek := if upd.daysOfWeek.Some? then DaysToString(upd.daysOfWeek) else row.daysOfWeek,
      categoryId := if upd.categoryId.Some? then upd.categoryId else row.categoryId)
  }

  /** update_activity: 404 for a missing or deleted activity, then 400 for
      a supplied category that is not active; else the supplied fields
      are written and every other field and row is unchanged. */
  function UpdateActivity(table: map<int, ActivityRow>, activeCategories: set<int>, id: int, upd: ActivityUpdate)
    : (r: Result<(map<int, ActivityRow>, ActivityView)>)
    ensures r.Failure? <==> !Visible(table, id) || !CategoryOk(upd.categoryId, activeCategories)
    ensures r.Failure? ==> r.status == (if !Visible(table, id) then 404 else 400)
    ensures r.Ok? ==>
      && r.value.0.Keys == table.Keys
      && (forall other :: other in table && other != id ==> r.value.0[other] == table[other])
      && r.value.1 == RowToActivity(r.value.0[id])
  {
    if !Visible(table, id) then Failure(404)
    else if !CategoryOk(upd.categoryId, activeCategories) then Failure(400)
    else
      var row := Patched(table[id], upd);
      Ok((table[id := row], RowToActivity(row)))
  }

  /** Only the supplied fields of the row change: each field is the
      supplied value, or the old one when the field was left out. An
      empty day list is stored as NULL, which means every day. */
  lemma UpdateFields(table: map<int, ActivityRow>, activeCategories: set<int>, id: int, upd: ActivityUpdate,
                     t: map<int, ActivityRow>, v: ActivityView)
    requires UpdateActivity(table, activeCategories, id, upd) == Ok((t, v))
    ensures t[id].id == table[id].id && t[id].isActive
    ensures t[id].name == (if upd.name.Some? then upd.name.value else table[id].name)
    ensures t[id].points == (if upd.points.Some? then upd.points.value else table[id].points)
    ensures upd.daysOfWeek.None? ==> t[id].daysOfWeek == table[id].daysOfWeek
    ensures upd.daysOfWeek.Some? ==> t[id].daysOfWeek == DaysToString(upd.daysOfWeek)
    ensures upd.daysOfWeek == Some([]) ==> t[id].daysOfWeek.None? && v.daysOfWeek.None?
    ensures upd.categoryId.None? ==> t[id].categoryId == table[id].categoryId
    ensures upd.categoryId.Some? ==> t[id].categoryId == upd.categoryId
  {
  }

  /** An update that supplies nothing leaves the table as it was. */
  lemma EmptyUpdate(table: map<int, ActivityRow>, activeCategories: set<int>, id: int)
    requires Visible(table, id)
    ensures UpdateActivity(table, activeCategories, id, ActivityUpdate(None, None, None, None)).Ok?
    ensures UpdateActivity(table, activeCategories, id, ActivityUpdate(None, None, None, None)).value.0 == table
  {
    assert Patched(table[id], ActivityUpdate(None, None, None, None)) == table[id];
  }

  /** Applying the same update twice has the effect of applying it once. */
  lemma UpdateIdempotent(table: map<int, ActivityRow>, activeCategories: set<int>, id: int, upd: ActivityUpdate)
    requires UpdateActivity(table, activeCategories, id, upd).Ok?
    ensures var once := UpdateActivity(table, activeCategories, id, upd).value.0;
      UpdateActivity(once, activeCategories, id, upd) == UpdateActivity(table, activeCategories, id, upd)
  {
    var once := UpdateActivity(table, activeCategories, id, upd).value.0;
    assert Patched(once[id], upd) == once[id];
    assert once[id := once[id]] == once;
  }

  /** delete_activity: 404 for a missing or deleted activity; else the row
      is marked inactive and kept. */
  function DeleteActivity(table: map<int, ActivityRow>, id: int): (r: Result<map<int, ActivityRow>>)
    ensures r.Failure? <==> !Visible(table, id)
    ensures r.Failure? ==> r.status == 404
    ensures r.Ok? ==>
      && r.value.Keys == table.Keys && !Visible(r.value, id)
      && r.value[id] == table[id].(isActive := false)
      && forall other :: other in table && other != id ==> r.value[other] == table[other]
  {
    if !Visible(table, id) then Failure(404)
    else Ok(table[id := table[id].(isActive := false)])
  }

  /** A deleted activity can be neither updated nor deleted again. */
  lemma DeletedIsGone(table: map<int, ActivityRow>, activeCategories: set<int>, id: int, upd: ActivityUpdate)
    requires DeleteActivity(table, id).Ok?
    ensures UpdateActivity(DeleteActivity(table, id).value, activeCategories, id, upd) == Failure(404)
    ensures DeleteActivity(DeleteActivity(table, id).value, id) == Failure(404)
  {
  }
}
