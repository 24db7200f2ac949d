/**
 * The mask-generation service's object views: uploading an object list from
 * an `.obj` or JSON file, with get-or-create of every row, and viewing the
 * lists of a given name.
 */
module MaskgenViews {
  import opened Wrappers
  import opened Text
  import opened PyText
  import opened Tables
  import opened Requests
  import opened ObjFormat
  import opened TemplateViews

  // ----- decoding the uploaded file -----

  /** A parsed `.obj` line as the dictionary `obj_to_json` builds for it. */
  function RecordDict(r: ObjRecord): (d: map<string, Value>)
    ensures d.Keys == (if r.lengths.Some? then {"name", "type", "ra", "dec", "priority", "a_len", "b_len"}
                       else {"name", "type", "ra", "dec", "priority"})
  {
    var base := map["name" := VStr(r.name), "type" := VStr(r.kind), "ra" := VNum(r.ra), "dec" := VNum(r.dec),
                     "priority" := VNum(r.priority)];
    match r.lengths
    case None => base
    case Some((a, b)) => base["a_len" := VNum(a)]["b_len" := VNum(b)]
  }

  function RecordRows(records: seq<ObjRecord>): (rows: seq<Value>)
    ensures |rows| == |records|
  {
    seq(|records|, k requires 0 <= k < |records| => VDict(RecordDict(records[k])))
  }

  /**
   * What `for row in data` runs over: the items of a list; an empty object
   * or string gives no rows; `None` is a loop that fails at its first row or
   * cannot start.
   */
  function Iterated(v: Value): Option<seq<Value>> {
    match v
    case VList(items) => Some(items)
    case VDict(m) => if m == map[] then Some([]) else None
    case VStr(s) => if s == "" then Some([]) else None
    case _ => None
  }

  /**
   * The file's rows: an `.obj` file by the line parser, anything else by
   * `json.loads`, here the parameter `json` (`None` for malformed JSON);
   * `Err` is the exception that escapes the decoding.
   */
  function DecodedRows(fileName: string, text: string, json: string -> Option<Value>): Result<Option<seq<Value>>, string> {
    if EndsWith(fileName, ".obj") then
      match ObjToJsonSpec(text)
      case Err(token) => Err("ValueError: could not convert string to float: '" + token + "'")
      case Ok(records) => Ok(Some(RecordRows(records)))
    else
      match json(text)
      case None => Err("JSONDecodeError")
      case Some(v) => Ok(Iterated(v))
  }

  // ----- one row of the upload loop -----

  /**
   * The values popped from a row, and what is left of it for `aux`; a name
   * or type of `None` is a JSON null, which the NOT NULL columns refuse.
   */
  datatype RowFields = RowFields(name: Option<string>, kind: Option<string>, ra: real, dec: real, priority: int, aux: Value)

  const RowColumns: set<string> := {"name", "type", "ra", "dec", "priority"}

  /** The pops and conversions of one row, in the order the call's arguments are evaluated. */
  function RowOf(row: Value, str: Value -> string): Result<RowFields, string> {
    if !row.VDict? then Err("TypeError: a row is not a JSON object")
    else
      var m := row.fields;
      if "name" !in m then Err("KeyError: 'name'")
      else if "type" !in m then Err("KeyError: 'type'")
      else if "ra" !in m then Err("KeyError: 'ra'")
      else if ToFloat(m["ra"]).None? then Err("ValueError: ra")
      else if "dec" !in m then Err("KeyError: 'dec'")
      else if ToFloat(m["dec"]).None? then Err("ValueError: dec")
      else if "priority" !in m then Err("KeyError: 'priority'")
      else if ToInt(m["priority"]).None? then Err("ValueError: priority")
      else Ok(RowFields(Column(m["name"], str), Column(m["type"], str), ToFloat(m["ra"]).value,
                        ToFloat(m["dec"]).value, ToInt(m["priority"]).value, VDict(m - RowColumns)))
  }

  /** A row parsed from an `.obj` line always decodes; its priority is truncated toward zero and its lengths go to `aux`. */
  lemma RecordRowDecodes(r: ObjRecord, str: Value -> string)
    ensures var f := RowOf(VDict(RecordDict(r)), str);
      && f.Ok?
      && f.value == RowFields(Some(r.name), Some(r.kind), r.ra, r.dec, Truncate(r.priority), f.value.aux)
      && f.value.aux.VDict?
      && f.value.aux.fields.Keys == (if r.lengths.Some? then {"a_len", "b_len"} else {})
  {
    var d := RecordDict(r);
    assert (d - RowColumns).Keys == d.Keys - RowColumns;
  }

  /** The row decoding of `upload`, as a value the loop is parameterised by. */
  function Decoder(str: Value -> string): Value -> Result<RowFields, string> {
    (row: Value) => RowOf(row, str)
  }

  function Owned(name: string, user: string): ObjectRow -> bool {
    (o: ObjectRow) => o.name == name && o.userId == user
  }

  /** The tables and results as the loop goes: objects, the next free id, the ids answered, the list's members, and the exception that ended the loop. */
  datatype Loading = Loading(objects: seq<ObjectRow>, nextId: nat, created: seq<nat>, members: seq<nat>, stop: Option<string>)

  /** One row: its values are popped, then its object is got or created. */
  function LoadRow(s: Loading, user: string, row: Value, decode: Value -> Result<RowFields, string>): Loading {
    if s.stop.Some? then s
    else
      match decode(row)
      case Err(e) => s.(stop := Some(e))
      case Ok(f) => GetOrCreate(s, user, f)
  }

  /**
   * `get_or_create` by `(name, user_id)`, then the id is recorded and added
   * to the list. A null name matches no object, so it reaches the create,
   * which refuses it; a null type is refused only when the object has to be
   * created.
   */
  function GetOrCreate(s: Loading, user: string, f: RowFields): Loading {
    match f.name
    case None => s.(stop := Some(NotNullFailed("name")))
    case Some(name) =>
      match Get(s.objects, Owned(name, user))
      case Found(o) => s.(created := s.created + [o.id], members := AddMember(s.members, o.id))
      case DoesNotExist =>
        if f.kind.None? then s.(stop := Some(NotNullFailed("type")))
        else
          var o := ObjectRow(s.nextId, name, user, f.kind.value, f.ra, f.dec, f.priority, f.aux);
          s.(objects := s.objects + [o], nextId := s.nextId + 1, created := s.created + [o.id],
             members := AddMember(s.members, o.id))
      case MultipleReturned => s.(stop := Some("MultipleObjectsReturned"))
  }

  function LoadRows(s: Loading, user: string, rows: seq<Value>, decode: Value -> Result<RowFields, string>): Loading
    decreases |rows|
  {
    if rows == [] then s
    else LoadRow(LoadRows(s, user, rows[..|rows| - 1], decode), user, rows[|rows| - 1], decode)
  }

  /**
   * What the loop keeps: object ids unique and below the next id, the list
   * holding exactly the ids answered so far, without repeats, and each of
   * them an object of the uploading user.
   */
  ghost predicate Loaded(s: Loading, user: string) {
    && UniqueBy(s.objects, ObjectId)
    && (forall o :: o in s.objects ==> o.id < s.nextId)
    && (forall x :: x in s.members <==> x in s.created)
    && NoDuplicates(s.members)
    && (forall x :: x in s.created ==> exists o :: o in s.objects && o.id == x && o.userId == user)
  }

  /** `t` extends `s`: objects are only appended, ids only grow, answers are only appended. */
  predicate Grows(s: Loading, t: Loading) {
    && |t.objects| >= |s.objects| && t.objects[..|s.objects|] == s.objects
    && t.nextId >= s.nextId
    && |t.created| >= |s.created| && t.created[..|s.created|] == s.created
  }

  lemma GrowsTransitive(a: Loading, b: Loading, c: Loading)
    requires Grows(a, b) && Grows(b, c)
    ensures Grows(a, c)
  {
    assert c.objects[..|b.objects|][..|a.objects|] == c.objects[..|a.objects|];
    assert c.created[..|b.created|][..|a.created|] == c.created[..|a.created|];
  }

  /** Answering an existing object of the user keeps the invariant. */
  lemma FoundKeeps(s: Loading, user: string, o: ObjectRow)
    requires Loaded(s, user) && o in s.objects && o.userId == user
    ensures var t := s.(created := s.created + [o.id], members := AddMember(s.members, o.id));
      Loaded(t, user) && Grows(s, t)
  {
    AddMemberKeepsDistinct(s.members, o.id);
  }

  /** Creating an object of the user under the next id, and answering it, keeps the invariant. */
  lemma CreatedKeeps(s: Loading, user: string, o: ObjectRow)
    requires Loaded(s, user) && o.id == s.nextId && o.userId == user
    ensures var t := s.(objects := s.objects + [o], nextId := s.nextId + 1, created := s.created + [o.id],
                        members := AddMember(s.members, o.id));
      Loaded(t, user) && Grows(s, t)
  {
    var t := s.(objects := s.objects + [o], nextId := s.nextId + 1, created := s.created + [o.id],
                members := AddMember(s.members, o.id));
    UniqueByAppend(s.objects, ObjectId, o);
    AddMemberKeepsDistinct(s.members, o.id);
    assert t.objects[..|s.objects|] == s.objects;
    forall x | x in t.created
      ensures exists o' :: o' in t.objects && o'.id == x && o'.userId == user
    {
      if x != o.id {
        var o' :| o' in s.objects && o'.id == x && o'.userId == user;
        assert o' in t.objects;
      } else {
        assert o in t.objects;
      }
    }
  }

  /** One row keeps the invariant, never rewrites an existing object, and answers one id unless it stops the loop. */
  lemma LoadRowFacts(s: Loading, user: string, row: Value, decode: Value -> Result<RowFields, string>)
    requires Loaded(s, user)
    ensures var s' := LoadRow(s, user, row, decode);
      && Loaded(s', user)
      && Grows(s, s')
      && (s'.stop.None? ==> s.stop.None? && |s'.created| == |s.created| + 1)
      && (s'.stop.Some? ==> |s'.created| == |s.created|)
  {
    var s' := LoadRow(s, user, row, decode);
    if s.stop.Some? || decode(row).Err? || decode(row).value.name.None? {
      assert s' == s || s' == s.(stop := s'.stop);
    } else {
      var f := decode(row).value;
      GetFacts(s.objects, Owned(f.name.value, user));
      match Get(s.objects, Owned(f.name.value, user)) {
        case Found(o) =>
          FoundKeeps(s, user, o);
        case DoesNotExist =>
          if f.kind.Some? {
            CreatedKeeps(s, user, ObjectRow(s.nextId, f.name.value, user, f.kind.value, f.ra, f.dec, f.priority, f.aux));
          }
        case MultipleReturned =>
      }
    }
  }

  /**
   * The whole loop: existing objects are kept as they are, and a loop that
   * runs to the end answers one id per row, in row order.
   */
  lemma {:induction false} LoadRowsFacts(s: Loading, user: string, rows: seq<Value>, decode: Value -> Result<RowFields, string>)
    requires Loaded(s, user) && s.stop.None?
    ensures var s' := LoadRows(s, user, rows, decode);
      && Loaded(s', user)
      && Grows(s, s')
      && (s'.stop.None? ==> |s'.created| == |s.created| + |rows|)
    decreases |rows|
  {
    if rows != [] {
      var front := rows[..|rows| - 1];
      LoadRowsFacts(s, user, front, decode);
      var m := LoadRows(s, user, front, decode);
      LoadRowFacts(m, user, rows[|rows| - 1], decode);
      GrowsTransitive(s, m, LoadRow(m, user, rows[|rows| - 1], decode));
    }
  }

  /**
   * A row that does not stop the loop has a name and answers, at the end of
   * `created`, an object of the user with that name.
   */
  lemma LoadRowAnswers(s: Loading, user: string, row: Value, decode: Value -> Result<RowFields, string>)
    requires Loaded(s, user) && LoadRow(s, user, row, decode).stop.None?
    ensures var t := LoadRow(s, user, row, decode);
      && decode(row).Ok? && decode(row).value.name.Some? && |t.created| == |s.created| + 1
      && exists o :: o in t.objects && o.id == t.created[|s.created|] && decode(row).value.name == Some(o.name) && o.userId == user
  {
    var f := decode(row).value;
    GetFacts(s.objects, Owned(f.name.value, user));
    var t := LoadRow(s, user, row, decode);
    match Get(s.objects, Owned(f.name.value, user)) {
      case Found(o) =>
        assert o in t.objects && o.id == t.created[|s.created|];
      case DoesNotExist =>
        var o := ObjectRow(s.nextId, f.name.value, user, f.kind.value, f.ra, f.dec, f.priority, f.aux);
        assert o in t.objects && o.id == t.created[|s.created|];
    }
  }

  /**
   * A null name stops the loop at the create, which the `NOT NULL` column
   * refuses; a null type stops it only when no object of the user has the
   * name, so that one has to be created.
   */
  lemma LoadRowNullColumns(s: Loading, user: string, row: Value, decode: Value -> Result<RowFields, string>)
    requires s.stop.None? && decode(row).Ok?
    ensures var f, t := decode(row).value, LoadRow(s, user, row, decode);
      && (f.name.None? ==> t == s.(stop := Some(NotNullFailed("name"))))
      && (f.name.Some? && f.kind.None? ==>
            (t.stop == Some(NotNullFailed("type")) <==> Get(s.objects, Owned(f.name.value, user)).DoesNotExist?))
  {
    var f := decode(row).value;
    if f.name.Some? && f.kind.None? && Get(s.objects, Owned(f.name.value, user)).MultipleReturned? {
      var prefix := "IntegrityError: NOT NULL constraint failed: ";
      assert NotNullFailed("type") == prefix + "type" && (prefix + "type")[0] == prefix[0] == 'I';
      assert "MultipleObjectsReturned"[0] == 'M';
    }
  }

  /**
   * A row whose name `Column` refuses, a JSON null, stops the upload with
   * the NOT NULL error on `name`, whichever objects exist; its other fields
   * decoded, so the stop is the create's.
   */
  lemma NullNameRefused(s: Loading, user: string, row: Value, str: Value -> string)
    requires s.stop.None? && RowOf(row, str).Ok?
    ensures row.VDict? && "name" in row.fields
    ensures Column(row.fields["name"], str).None? ==>
      LoadRow(s, user, row, Decoder(str)) == s.(stop := Some(NotNullFailed("name")))
    ensures Column(row.fields["name"], str).Some? ==> LoadRow(s, user, row, Decoder(str)).stop != Some(NotNullFailed("name"))
  {
    assert Decoder(str)(row) == RowOf(row, str);
    var f := RowOf(row, str).value;
    if f.name.Some? && f.kind.None? && Get(s.objects, Owned(f.name.value, user)).DoesNotExist? {
      var prefix := "IntegrityError: NOT NULL constraint failed: ";
      assert NotNullFailed("type") == prefix + "type" && NotNullFailed("name") == prefix + "name";
      assert (prefix + "type")[|prefix|] == 't' && (prefix + "name")[|prefix|] == 'n';
    }
    if f.name.Some? && Get(s.objects, Owned(f.name.value, user)).MultipleReturned? {
      var prefix := "IntegrityError: NOT NULL constraint failed: ";
      assert NotNullFailed("name") == prefix + "name" && (prefix + "name")[0] == prefix[0] == 'I';
      assert "MultipleObjectsReturned"[0] == 'M';
    }
  }

  /** From index `base` on, `created` answers `rows` one by one: each id an object of the user named by its row. */
  ghost predicate Answers(t: Loading, base: nat, user: string, rows: seq<Value>, decode: Value -> Result<RowFields, string>) {
    && |t.created| >= base + |rows|
    && forall k :: 0 <= k < |rows| ==>
         && decode(rows[k]).Ok?
         && exists o :: o in t.objects && o.id == t.created[base + k] &&
              decode(rows[k]).value.name == Some(o.name) && o.userId == user
  }

  lemma AnswersGrow(t: Loading, u: Loading, base: nat, user: string, rows: seq<Value>, decode: Value -> Result<RowFields, string>)
    requires Answers(t, base, user, rows, decode) && Grows(t, u)
    ensures Answers(u, base, user, rows, decode)
  {
    forall k | 0 <= k < |rows|
      ensures decode(rows[k]).Ok?
      ensures exists o :: o in u.objects && o.id == u.created[base + k] &&
                decode(rows[k]).value.name == Some(o.name) && o.userId == user
    {
      assert decode(rows[k]).Ok?;
      assert exists o :: o in t.objects && o.id == t.created[base + k] && decode(rows[k]).value.name == Some(o.name) && o.userId == user;
      var o :| o in t.objects && o.id == t.created[base + k] && decode(rows[k]).value.name == Some(o.name) && o.userId == user;
      assert o in u.objects[..|t.objects|];
      assert u.created[..|t.created|][base + k] == u.created[base + k];
    }
  }

  lemma AnswersSnoc(t: Loading, base: nat, user: string, rows: seq<Value>, decode: Value -> Result<RowFields, string>)
    requires rows != [] && Answers(t, base, user, rows[..|rows| - 1], decode)
    requires |t.created| == base + |rows|
    requires decode(rows[|rows| - 1]).Ok?
    requires exists o :: o in t.objects && o.id == t.created[base + |rows| - 1] &&
               decode(rows[|rows| - 1]).value.name == Some(o.name) && o.userId == user
    ensures Answers(t, base, user, rows, decode)
  {
    var front := rows[..|rows| - 1];
    forall k | 0 <= k < |rows| - 1
      ensures rows[k] == front[k]
    {
    }
  }

  /**
   * When the loop runs to the end, the `k`-th id answered is an object of
   * the user named by the `k`-th row: one answer per row, in row order.
   */
  lemma {:induction false} LoadRowsAnswers(s: Loading, user: string, rows: seq<Value>,
                                           decode: Value -> Result<RowFields, string>)
    requires Loaded(s, user) && s.stop.None?
    ensures var t := LoadRows(s, user, rows, decode);
      t.stop.None? ==> |t.created| == |s.created| + |rows| && Answers(t, |s.created|, user, rows, decode)
    decreases |rows|
  {
    var t := LoadRows(s, user, rows, decode);
    if rows != [] && t.stop.None? {
      var front, last := rows[..|rows| - 1], rows[|rows| - 1];
      var m := LoadRows(s, user, front, decode);
      assert t == LoadRow(m, user, last, decode);
      assert m.stop.None?;
      LoadRowsFacts(s, user, front, decode);
      LoadRowsAnswers(s, user, front, decode);
      AnswersStep(m, |s.created|, user, rows, decode);
    }
  }

  /** A row that does not stop the loop adds its answer after those of the rows before it. */
  lemma AnswersStep(m: Loading, base: nat, user: string, rows: seq<Value>, decode: Value -> Result<RowFields, string>)
    requires rows != [] && Loaded(m, user) && |m.created| == base + |rows| - 1
    requires Answers(m, base, user, rows[..|rows| - 1], decode)
    requires LoadRow(m, user, rows[|rows| - 1], decode).stop.None?
    ensures var t := LoadRow(m, user, rows[|rows| - 1], decode);
      |t.created| == base + |rows| && Answers(t, base, user, rows, decode)
  {
    var t := LoadRow(m, user, rows[|rows| - 1], decode);
    LoadRowFacts(m, user, rows[|rows| - 1], decode);
    LoadRowAnswers(m, user, rows[|rows| - 1], decode);
    AnswersGrow(m, t, base, user, rows[..|rows| - 1], decode);
    AnswersSnoc(t, base, user, rows, decode);
  }

  lemma LoadRowsStep(s: Loading, user: string, rows: seq<Value>, i: nat, decode: Value -> Result<RowFields, string>)
    requires i < |rows|
    ensures LoadRows(s, user, rows[..i + 1], decode) == LoadRow(LoadRows(s, user, rows[..i], decode), user, rows[i], decode)
  {
    assert rows[..i + 1][..i] == rows[..i];
  }

  lemma {:induction false} LoadRowsStops(s: Loading, user: string, rows: seq<Value>, n: nat, decode: Value -> Result<RowFields, string>)
    requires n <= |rows| && LoadRows(s, user, rows[..n], decode).stop.Some?
    ensures LoadRows(s, user, rows, decode) == LoadRows(s, user, rows[..n], decode)
    decreases |rows| - n
  {
    if n < |rows| {
      LoadRowsStep(s, user, rows, n, decode);
      LoadRowsStops(s, user, rows, n + 1, decode);
    } else {
      assert rows[..n] == rows;
    }
  }

  // ----- ObjectViewSet.upload -----

  function IdValues(ids: seq<nat>): (values: seq<Value>)
    ensures |values| == |ids|
  {
    seq(|ids|, k requires 0 <= k < |ids| => VNum(ids[k] as real))
  }

  /** The reply of a successful upload: the ids answered, in row order, and the list's name. */
  function CreatedBody(ids: seq<nat>, listName: string): Value {
    VDict(map["created" := VList(IdValues(ids)), "obj_list" := VStr(listName)])
  }

  /** `upload` on the objects and lists tables: the new tables, the next id and the reply. */
  function Uploaded(objects: seq<ObjectRow>, lists: seq<ObjectListRow>, nextId: nat,
                    fileName: string, text: string, json: string -> Option<Value>,
                    listName: string, userId: string, str: Value -> string)
    : (seq<ObjectRow>, seq<ObjectListRow>, nat, Response)
  {
    match DecodedRows(fileName, text, json)
    case Err(e) => (objects, lists, nextId, Raised(e))
    case Ok(data) => UploadedRows(objects, lists, nextId, data, listName, userId, str)
  }

  /** `upload` once the file has decoded to `data`: the duplicate check, the new list, then the loop. */
  function UploadedRows(objects: seq<ObjectRow>, lists: seq<ObjectListRow>, nextId: nat,
                        data: Option<seq<Value>>, listName: string, userId: string, str: Value -> string)
    : (seq<ObjectRow>, seq<ObjectListRow>, nat, Response)
  {
    if HasList(lists, listName, userId) then (objects, lists, nextId, DuplicateList(listName, userId))
    else ListFilled(objects, lists, nextId, data, listName, userId, str)
  }

  /** `upload` past the duplicate check: the list is created under `nextId`, then the rows are loaded into it. */
  function ListFilled(objects: seq<ObjectRow>, lists: seq<ObjectListRow>, nextId: nat,
                      data: Option<seq<Value>>, listName: string, userId: string, str: Value -> string)
    : (seq<ObjectRow>, seq<ObjectListRow>, nat, Response)
  {
    var following: nat := nextId + 1;
    match data
    case None => (objects, lists + [ObjectListRow(nextId, listName, userId, [])], following,
                  Raised("TypeError: the decoded data is not a list of rows"))
    case Some(rows) =>
      var s := LoadRows(Loading(objects, following, [], [], None), userId, rows, Decoder(str));
      (s.objects, lists + [ObjectListRow(nextId, listName, userId, s.members)], s.nextId,
       if s.stop.Some? then Raised(s.stop.value)
       else Response(201, CreatedBody(s.created, listName)))
  }

  /** A file that does not decode, or a list name the user already has, leaves every table as it was. */
  lemma UploadRefusals(objects: seq<ObjectRow>, lists: seq<ObjectListRow>, nextId: nat,
                       fileName: string, text: string, json: string -> Option<Value>,
                       listName: string, userId: string, str: Value -> string)
    ensures var (objects', lists', nextId', r) := Uploaded(objects, lists, nextId, fileName, text, json, listName, userId, str);
      && (DecodedRows(fileName, text, json).Err? ==> r.Raised? && (objects', lists', nextId') == (objects, lists, nextId))
      && (DecodedRows(fileName, text, json).Ok? && HasList(lists, listName, userId) ==>
            r == DuplicateList(listName, userId) && (objects', lists', nextId') == (objects, lists, nextId))
  {
  }

  /**
   * An `.obj` file decodes exactly when every line parses, into one row per
   * parsed object; any other file decodes exactly when it is JSON.
   */
  lemma DecodedRowsFacts(fileName: string, text: string, json: string -> Option<Value>)
    ensures EndsWith(fileName, ".obj") ==>
      && (DecodedRows(fileName, text, json).Ok? <==> ObjToJsonSpec(text).Ok?)
      && (ObjToJsonSpec(text).Ok? ==>
            DecodedRows(fileName, text, json).value == Some(RecordRows(ObjToJsonSpec(text).value)))
    ensures !EndsWith(fileName, ".obj") ==> (DecodedRows(fileName, text, json).Ok? <==> json(text).Some?)
  {
  }

  /**
   * A successful upload keeps existing objects as they are and the ids
   * fresh, appends one list of the user's, and the list's members are exactly
   * the ids in the reply, each an object of the user.
   */
  lemma UploadSucceedsTables(objects: seq<ObjectRow>, lists: seq<ObjectListRow>, nextId: nat,
                             data: Option<seq<Value>>, listName: string, userId: string, str: Value -> string)
    requires UniqueBy(objects, ObjectId) && forall o :: o in objects ==> o.id < nextId
    requires var r := UploadedRows(objects, lists, nextId, data, listName, userId, str).3;
      r.Response? && r.status == 201
    ensures var (objects', lists', nextId', _) := UploadedRows(objects, lists, nextId, data, listName, userId, str);
      && data.Some? && !HasList(lists, listName, userId)
      && |objects'| >= |objects| && objects'[..|objects|] == objects
      && UniqueBy(objects', ObjectId) && (forall o :: o in objects' ==> o.id < nextId')
      && |lists'| == |lists| + 1 && lists'[..|lists|] == lists
      && var list := lists'[|lists|];
      && list.name == listName && list.userId == userId && NoDuplicates(list.members)
      && (forall x :: x in list.members ==> exists o :: o in objects' && o.id == x && o.userId == userId)
  {
    var start := Loading(objects, nextId + 1, [], [], None);
    LoadRowsFacts(start, userId, data.value, Decoder(str));
    var s := LoadRows(start, userId, data.value, Decoder(str));
    assert (lists + [ObjectListRow(nextId, listName, userId, s.members)])[..|lists|] == lists;
  }

  /** The reply of a successful upload answers one id per decoded row, and each is a member of the new list. */
  lemma UploadSucceedsReply(objects: seq<ObjectRow>, lists: seq<ObjectListRow>, nextId: nat,
                            data: Option<seq<Value>>, listName: string, userId: string, str: Value -> string)
    requires UniqueBy(objects, ObjectId) && forall o :: o in objects ==> o.id < nextId
    requires var r := UploadedRows(objects, lists, nextId, data, listName, userId, str).3;
      r.Response? && r.status == 201
    ensures var (_, lists', _, r) := UploadedRows(objects, lists, nextId, data, listName, userId, str);
      && data.Some? && |lists'| == |lists| + 1
      && exists ids: seq<nat> ::
           && r.body == CreatedBody(ids, listName)
           && |ids| == |data.value|
           && (forall x :: x in ids <==> x in lists'[|lists|].members)
  {
    var start := Loading(objects, nextId + 1, [], [], None);
    LoadRowsFacts(start, userId, data.value, Decoder(str));
    var s := LoadRows(start, userId, data.value, Decoder(str));
    assert UploadedRows(objects, lists, nextId, data, listName, userId, str) ==
      (s.objects, lists + [ObjectListRow(nextId, listName, userId, s.members)], s.nextId,
       Response(201, CreatedBody(s.created, listName)));
    assert |s.created| == |data.value|;
  }

  /** `r` lists, for each row in order, the id of an object in `objects` of the user named by that row. */
  ghost predicate RepliesInOrder(objects: seq<ObjectRow>, r: Response, rows: seq<Value>, listName: string,
                                 userId: string, str: Value -> string) {
    && r.Response?
    && exists ids: seq<nat> ::
      && r.body == CreatedBody(ids, listName)
      && |ids| == |rows|
      && forall k :: 0 <= k < |ids| ==>
           && RowOf(rows[k], str).Ok?
           && exists o :: o in objects && o.id == ids[k] && RowOf(rows[k], str).value.name == Some(o.name) &&
                o.userId == userId
  }

  /** The `k`-th id in the reply of a successful upload is the user's object named by the `k`-th row. */
  lemma UploadSucceedsOrder(objects: seq<ObjectRow>, lists: seq<ObjectListRow>, nextId: nat,
                            data: Option<seq<Value>>, listName: string, userId: string, str: Value -> string)
    requires UniqueBy(objects, ObjectId) && forall o :: o in objects ==> o.id < nextId
    requires var r := UploadedRows(objects, lists, nextId, data, listName, userId, str).3;
      r.Response? && r.status == 201
    ensures var (objects', _, _, r) := UploadedRows(objects, lists, nextId, data, listName, userId, str);
      data.Some? && RepliesInOrder(objects', r, data.value, listName, userId, str)
  {
    var start := Loading(objects, nextId + 1, [], [], None);
    var s := LoadRows(start, userId, data.value, Decoder(str));
    assert !HasList(lists, listName, userId) && s.stop.None?;
    assert UploadedRows(objects, lists, nextId, data, listName, userId, str) ==
      (s.objects, lists + [ObjectListRow(nextId, listName, userId, s.members)], s.nextId,
       Response(201, CreatedBody(s.created, listName)));
    LoadRowsAnswers(start, userId, data.value, Decoder(str));
    ReplyInOrder(s, userId, data.value, listName, str);
  }

  lemma ReplyInOrder(t: Loading, user: string, rows: seq<Value>, listName: string, str: Value -> string)
    requires |t.created| == |rows| && Answers(t, 0, user, rows, Decoder(str))
    ensures RepliesInOrder(t.objects, Response(201, CreatedBody(t.created, listName)), rows, listName, user, str)
  {
    AnswersByRowOf(t, user, rows, str);
    assert Response(201, CreatedBody(t.created, listName)).body == CreatedBody(t.created, listName);
  }

  lemma AnswersByRowOf(t: Loading, user: string, rows: seq<Value>, str: Value -> string)
    requires Answers(t, 0, user, rows, Decoder(str))
    ensures forall k :: 0 <= k < |rows| ==>
      && RowOf(rows[k], str).Ok?
      && exists o :: o in t.objects && o.id == t.created[k] && RowOf(rows[k], str).value.name == Some(o.name) && o.userId == user
  {
    forall k | 0 <= k < |rows|
      ensures RowOf(rows[k], str).Ok?
      ensures exists o :: o in t.objects && o.id == t.created[k] && RowOf(rows[k], str).value.name == Some(o.name) && o.userId == user
    {
      assert Decoder(str)(rows[k]) == RowOf(rows[k], str);
    }
  }

  /** One pass of `upload`'s loop on the tables: get-or-create the row's object, then add it to the list at index `at`. */
  method LoadInto(db: Database, at: nat, user: string, row: Value, decode: Value -> Result<RowFields, string>, created: seq<nat>)
    returns (created': seq<nat>, stop: Option<string>)
    requires at < |db.lists|
    modifies db
    ensures var s := LoadRow(Loading(old(db.objects), old(db.nextId), created, old(db.lists[at].members), None), user, row, decode);
      && db.objects == s.objects && db.nextId == s.nextId && created' == s.created && stop == s.stop
      && db.lists == old(db.lists)[at := old(db.lists[at]).(members := s.members)]
    ensures db.configs == old(db.configs) && db.projects == old(db.projects) && db.masks == old(db.masks)
    ensures old(db.Valid()) ==> db.Valid()
  {
    created', stop := created, None;
    match decode(row) {
      case Err(e) =>
        stop := Some(e);
        assert db.lists == db.lists[at := db.lists[at]];
      case Ok(f) =>
        var id: nat := 0;
        if f.name.None? {
          // `name IS NULL` matches no object, and the create refuses it
          stop := Some(NotNullFailed("name"));
        } else {
          match Get(db.objects, Owned(f.name.value, user)) {
            case Found(o) => id := o.id;
            case DoesNotExist =>
              if f.kind.None? {
                stop := Some(NotNullFailed("type"));
              } else {
                id := db.CreateObject(ObjectRow(0, f.name.value, user, f.kind.value, f.ra, f.dec, f.priority, f.aux));
              }
            case MultipleReturned => stop := Some("MultipleObjectsReturned");
          }
        }
        if stop.None? {
          created' := created + [id];
          db.AddToList(at, id);
        } else {
          assert db.lists == db.lists[at := db.lists[at]];
        }
    }
  }

  /** `upload`'s loop over the rows, adding to the last list of the table; it ends at the first exception. */
  method LoadAll(db: Database, rows: seq<Value>, user: string, decode: Value -> Result<RowFields, string>)
    returns (created: seq<nat>, stop: Option<string>)
    requires |db.lists| > 0
    modifies db
    ensures var at := |old(db.lists)| - 1;
      var s := LoadRows(Loading(old(db.objects), old(db.nextId), [], old(db.lists[at].members), None), user, rows, decode);
      && db.objects == s.objects && db.nextId == s.nextId && created == s.created && stop == s.stop
      && db.lists == old(db.lists)[at := old(db.lists[at]).(members := s.members)]
    ensures db.configs == old(db.configs) && db.projects == old(db.projects) && db.masks == old(db.masks)
    ensures old(db.Valid()) ==> db.Valid()
  {
    var at := |db.lists| - 1;
    ghost var lists0 := db.lists;
    ghost var start := Loading(db.objects, db.nextId, [], db.lists[at].members, None);
    created, stop := [], None;
    var i := 0;
    while i < |rows| && stop.None?
      invariant 0 <= i <= |rows| && |db.lists| == |lists0|
      invariant var s := LoadRows(start, user, rows[..i], decode);
        && db.objects == s.objects && db.nextId == s.nextId && created == s.created && stop == s.stop
        && db.lists == lists0[at := lists0[at].(members := s.members)]
      invariant db.configs == old(db.configs) && db.projects == old(db.projects) && db.masks == old(db.masks)
      invariant old(db.Valid()) ==> db.Valid()
    {
      LoadRowsStep(start, user, rows, i, decode);
      created, stop := LoadInto(db, at, user, rows[i], decode, created);
      i := i + 1;
    }
    if stop.None? {
      assert rows[..i] == rows;
    } else {
      LoadRowsStops(start, user, rows, i, decode);
    }
  }

  /** `upload`: decode the file, then store its rows. */
  method ObjectUpload(db: Database, fileName: string, text: string, json: string -> Option<Value>,
                      listName: string, userId: string, str: Value -> string) returns (r: Response)
    modifies db
    ensures (db.objects, db.lists, db.nextId, r) ==
      Uploaded(old(db.objects), old(db.lists), old(db.nextId), fileName, text, json, listName, userId, str)
    ensures db.configs == old(db.configs) && db.projects == old(db.projects) && db.masks == old(db.masks)
    ensures old(db.Valid()) ==> db.Valid()
  {
    var data := DecodedRows(fileName, text, json);
    if data.Err? {
      return Raised(data.error);
    }
    r := StoreRows(db, data.value, listName, userId, str);
  }

  /** The duplicate check, the new list, then the get-or-create loop over the decoded rows. */
  method StoreRows(db: Database, data: Option<seq<Value>>, listName: string, userId: string, str: Value -> string)
    returns (r: Response)
    modifies db
    ensures (db.objects, db.lists, db.nextId, r) ==
      UploadedRows(old(db.objects), old(db.lists), old(db.nextId), data, listName, userId, str)
    ensures db.configs == old(db.configs) && db.projects == old(db.projects) && db.masks == old(db.masks)
    ensures old(db.Valid()) ==> db.Valid()
  {
    var existing := Filter(db.lists, ListNamedBy(listName, userId));
    if |existing| > 0 {
      assert existing[0] in existing;
      return DuplicateList(listName, userId);
    }
    assert !HasList(db.lists, listName, userId);
    r := FillList(db, data, listName, userId, str);
  }

  /** A new list of the user's, then the get-or-create loop over the rows into it. */
  method FillList(db: Database, data: Option<seq<Value>>, listName: string, userId: string, str: Value -> string)
    returns (r: Response)
    requires !HasList(db.lists, listName, userId)
    modifies db
    ensures (db.objects, db.lists, db.nextId, r) ==
      ListFilled(old(db.objects), old(db.lists), old(db.nextId), data, listName, userId, str)
    ensures db.configs == old(db.configs) && db.projects == old(db.projects) && db.masks == old(db.masks)
    ensures old(db.Valid()) ==> db.Valid()
  {
    ghost var lists0 := db.lists;
    var listId := db.CreateList(listName, userId);
    if data.None? {
      return Raised("TypeError: the decoded data is not a list of rows");
    }
    var created, stop := LoadAll(db, data.value, userId, Decoder(str));
    ghost var s := LoadRows(Loading(old(db.objects), old(db.nextId) + 1, [], [], None), userId, data.value, Decoder(str));
    assert db.lists == lists0 + [ObjectListRow(listId, listName, userId, s.members)];
    if stop.None? {
      r := Response(201, CreatedBody(created, listName));
    } else {
      r := Raised(stop.value);
    }
  }

  // ----- ObjectViewSet.view_list -----

  /** `ObjectSerializer`: the eight fields of an object. */
  function ObjectEntry(o: ObjectRow): Value {
    VDict(map["id" := VNum(o.id as real), "name" := VStr(o.name), "type" := VStr(o.kind), "user_id" := VStr(o.userId),
              "right_ascension" := VNum(o.ra), "declination" := VNum(o.dec), "priority" := VNum(o.priority as real),
              "aux" := o.aux])
  }

  function MemberOf(l: ObjectListRow): ObjectRow -> bool {
    (o: ObjectRow) => o.id in l.members
  }

  /** The objects of a list, in table order. */
  function ListObjects(objects: seq<ObjectRow>, l: ObjectListRow): seq<Value> {
    var members := Filter(objects, MemberOf(l));
    seq(|members|, k requires 0 <= k < |members| => ObjectEntry(members[k]))
  }

  /** A list's entries are the entries of exactly the objects whose ids it holds. */
  lemma ListObjectsExact(objects: seq<ObjectRow>, l: ObjectListRow)
    ensures forall e :: e in ListObjects(objects, l) <==> exists o :: o in objects && o.id in l.members && e == ObjectEntry(o)
  {
    var members := Filter(objects, MemberOf(l));
    forall e | e in ListObjects(objects, l)
      ensures exists o :: o in objects && o.id in l.members && e == ObjectEntry(o)
    {
      var j :| 0 <= j < |members| && ListObjects(objects, l)[j] == e;
      assert members[j] in members;
    }
    forall o | o in objects && o.id in l.members
      ensures ObjectEntry(o) in ListObjects(objects, l)
    {
      assert o in members;
      var j :| 0 <= j < |members| && members[j] == o;
      assert ListObjects(objects, l)[j] == ObjectEntry(o);
    }
  }

  function ListEntry(objects: seq<ObjectRow>, l: ObjectListRow): Value {
    VDict(map["list_name" := VStr(l.name), "objects" := VList(ListObjects(objects, l))])
  }

  function NamedList(name: Option<string>): ObjectListRow -> bool {
    (l: ObjectListRow) => name.Some? && l.name == name.value
  }

  /** Python's `str` of the query parameter in the 404 message. */
  function ParamText(name: Option<string>): string {
    if name.Some? then name.value else "None"
  }

  /** `view_list`: every list of the given name, whoever owns it, with its objects; none is a 404. */
  function ViewList(lists: seq<ObjectListRow>, objects: seq<ObjectRow>, listName: Option<string>): Response {
    var named := Filter(lists, NamedList(listName));
    if named == [] then Response(404, Message("error", "No ObjectList found with name '" + ParamText(listName) + "'"))
    else Response(200, VList(seq(|named|, k requires 0 <= k < |named| => ListEntry(objects, named[k]))))
  }

  /**
   * The reply is a 404 exactly when no list has the name; otherwise it has
   * one entry per list of that name, in table order, each naming the list
   * and listing every one of its member objects (and, by `ListObjectsExact`,
   * nothing else).
   */
  lemma ViewListFacts(lists: seq<ObjectListRow>, objects: seq<ObjectRow>, listName: Option<string>)
    ensures var r := ViewList(lists, objects, listName);
      && r.Response?
      && (r.status == 404 <==> forall l :: l in lists ==> !(listName.Some? && l.name == listName.value))
      && (r.status != 404 ==>
            && r.status == 200 && r.body.VList?
            && |r.body.items| == |Filter(lists, NamedList(listName))|
            && forall k :: 0 <= k < |r.body.items| ==>
                 var l := Filter(lists, NamedList(listName))[k];
                 && l in lists && l.name == listName.value
                 && r.body.items[k] == ListEntry(objects, l)
                 && forall o :: o in objects && o.id in l.members ==> ObjectEntry(o) in ListObjects(objects, l))
  {
    var named := Filter(lists, NamedList(listName));
    if named != [] {
      assert named[0] in named;
      forall k, o | 0 <= k < |named| && o in objects && o.id in named[k].members
        ensures ObjectEntry(o) in ListObjects(objects, named[k])
      {
        var members := Filter(objects, MemberOf(named[k]));
        assert o in members;
        var j :| 0 <= j < |members| && members[j] == o;
        assert ListObjects(objects, named[k])[j] == ObjectEntry(o);
      }
    }
  }
}
