/**
 * The record-table rules of the template service's REST views: listing a
 * user's projects, uploading and retrieving versioned instrument
 * configurations, the duplicate check of an object-list upload, editing one
 * object, and deleting a mask from a project.
 */
module TemplateViews {
  import opened Wrappers
  import opened Text
  import opened PyText
  import opened Tables
  import opened Requests

  // ----- ProjectViewSet.list_projects -----

  function OwnedBy(user: string): ProjectRow -> bool {
    (p: ProjectRow) => p.userId == user
  }

  function NamesOf(projects: seq<ProjectRow>): (names: seq<string>)
    ensures |names| == |projects|
    ensures forall k :: 0 <= k < |names| ==> names[k] == projects[k].name
  {
    seq(|projects|, k requires 0 <= k < |projects| => projects[k].name)
  }

  /** The names of a user's projects, in table order. */
  function ProjectNames(projects: seq<ProjectRow>, user: string): (names: seq<string>)
    ensures |names| <= |projects|
    ensures forall n :: n in names <==> exists p :: p in projects && p.userId == user && p.name == n
  {
    var mine := Filter(projects, OwnedBy(user));
    var names := NamesOf(mine);
    forall n | n in names
      ensures exists p :: p in projects && p.userId == user && p.name == n
    {
      var k :| 0 <= k < |mine| && names[k] == n;
      assert mine[k] in mine;
      assert mine[k] in projects && mine[k].userId == user && mine[k].name == n;
    }
    forall p | p in projects && p.userId == user
      ensures p.name in names
    {
      assert p in mine;
      var k :| 0 <= k < |mine| && mine[k] == p;
      assert names[k] == p.name;
    }
    names
  }

  /** Since a user's project names are unique, each one is listed once. */
  lemma ProjectNamesDistinct(projects: seq<ProjectRow>, user: string)
    requires UniqueBy(projects, ProjectKey)
    ensures var names := ProjectNames(projects, user);
      forall i, j :: 0 <= i < j < |names| ==> names[i] != names[j]
  {
    var mine := Filter(projects, OwnedBy(user));
    UniqueByFilter(projects, ProjectKey, OwnedBy(user));
    var names := ProjectNames(projects, user);
    forall i, j | 0 <= i < j < |names|
      ensures names[i] != names[j]
    {
      assert mine[i] in mine && mine[j] in mine;
      assert ProjectKey(mine[i]) != ProjectKey(mine[j]);
    }
  }

  function NameEntries(names: seq<string>): seq<Value> {
    seq(|names|, k requires 0 <= k < |names| => VDict(map["name" := VStr(names[k])]))
  }

  const MissingUserHeader := Response(400, Message("error", "missing user-id header"))

  /** `list_projects`: without a `user-id` header a 400; otherwise the caller's project names. */
  function ListProjects(projects: seq<ProjectRow>, userId: Option<string>): (r: Response)
    ensures r.Response? && (r.status == 400 <==> !Truthy(userId))
    ensures !Truthy(userId) ==> r == MissingUserHeader
    ensures Truthy(userId) ==>
      r == Response(200, VDict(map["projects" := VList(NameEntries(ProjectNames(projects, userId.value)))]))
  {
    if !Truthy(userId) then MissingUserHeader
    else Response(200, VDict(map["projects" := VList(NameEntries(ProjectNames(projects, userId.value)))]))
  }

  // ----- InstrumentViewSet -----

  function SameInstrument(instrument: string): ConfigRow -> bool {
    (c: ConfigRow) => c.instrument == instrument
  }

  /** `order_by("-version").first()`: a config of the highest version, the first such in table order. */
  function Highest(rows: seq<ConfigRow>): (r: Option<ConfigRow>)
    ensures r.None? <==> rows == []
    ensures r.Some? ==> r.value in rows && forall c :: c in rows ==> c.version <= r.value.version
  {
    if rows == [] then None
    else
      match Highest(rows[1..])
      case None => Some(rows[0])
      case Some(c) => if rows[0].version >= c.version then Some(rows[0]) else Some(c)
  }

  /** The newest config of an instrument. */
  function Latest(configs: seq<ConfigRow>, instrument: string): (r: Option<ConfigRow>)
    ensures r.None? <==> forall c :: c in configs ==> c.instrument != instrument
    ensures r.Some? ==> && r.value in configs && r.value.instrument == instrument
                        && forall c :: c in configs && c.instrument == instrument ==> c.version <= r.value.version
  {
    Highest(Filter(configs, SameInstrument(instrument)))
  }

  /** The version an upload gets: one more than the newest, or 1 for a new instrument. */
  function NextVersion(configs: seq<ConfigRow>, instrument: string): (v: int)
    ensures forall c :: c in configs && c.instrument == instrument ==> c.version < v
    ensures (forall c :: c in configs ==> c.instrument != instrument) ==> v == 1
    ensures v == 1 || exists c :: c in configs && c.instrument == instrument && v == c.version + 1
  {
    match Latest(configs, instrument)
    case None => 1
    case Some(c) => c.version + 1
  }

  /** The request keys that get their own columns; the rest goes, as JSON text, into `aux`. */
  const ConfigColumns: set<string> := {"instrument", "filters", "dispersers"}

  /**
   * The row `upload` creates, or the exception that stops it: a `KeyError`
   * for a missing key, then the database's refusal of a JSON null in one of
   * the three NOT NULL columns. `str` is Python's `str` of a non-string
   * instrument and `dumps` is `json.dumps`.
   */
  function UploadedConfig(configs: seq<ConfigRow>, id: nat, data: map<string, Value>,
                          str: Value -> string, dumps: map<string, Value> -> string): Result<ConfigRow, string>
  {
    if "instrument" !in data then Err("KeyError: 'instrument'")
    else if "filters" !in data then Err("KeyError: 'filters'")
    else if "dispersers" !in data then Err("KeyError: 'dispersers'")
    else
      match Column(data["instrument"], str)
      case None => Err(NotNullFailed("instrument"))
      case Some(instrument) =>
        if data["filters"].VNull? then Err(NotNullFailed("filters"))
        else if data["dispersers"].VNull? then Err(NotNullFailed("dispersers"))
        else
          var version := NextVersion(configs, instrument);
          Ok(ConfigRow(id, instrument, version, data["filters"], data["dispersers"], VStr(dumps(data - ConfigColumns))))
  }

  /**
   * An upload fails exactly for a missing key or a JSON null among the three
   * columns; otherwise it stores the given instrument, filters and
   * dispersers, everything else in `aux`, and a version above every version
   * of that instrument, one more than one of them, and 1 for a new instrument.
   */
  lemma UploadedConfigFacts(configs: seq<ConfigRow>, id: nat, data: map<string, Value>,
                            str: Value -> string, dumps: map<string, Value> -> string)
    ensures var u := UploadedConfig(configs, id, data, str, dumps);
      && (u.Err? <==> !(&& "instrument" in data && "filters" in data && "dispersers" in data
                        && !data["instrument"].VNull? && !data["filters"].VNull? && !data["dispersers"].VNull?))
      && (u.Err? && "instrument" in data && "filters" in data && "dispersers" in data ==>
            u.error == NotNullFailed("instrument") || u.error == NotNullFailed("filters") || u.error == NotNullFailed("dispersers"))
      && (u.Ok? ==>
            && Column(data["instrument"], str) == Some(u.value.instrument)
            && u.value.filters == data["filters"] && u.value.dispersers == data["dispersers"]
            && u.value.aux == VStr(dumps(data - ConfigColumns))
            && (forall c :: c in configs && c.instrument == u.value.instrument ==> c.version < u.value.version)
            && ((forall c :: c in configs ==> c.instrument != u.value.instrument) ==> u.value.version == 1)
            && ((exists c :: c in configs && c.instrument == u.value.instrument) ==>
                  exists c :: c in configs && c.instrument == u.value.instrument && u.value.version == c.version + 1))
  {
  }

  /**
   * What `Column` refuses, the upload refuses: a JSON null instrument fails
   * it with the NOT NULL error of that column.
   */
  lemma NullInstrumentRefused(configs: seq<ConfigRow>, id: nat, data: map<string, Value>,
                              str: Value -> string, dumps: map<string, Value> -> string)
    requires "instrument" in data && "filters" in data && "dispersers" in data
    ensures Column(data["instrument"], str).None? <==> UploadedConfig(configs, id, data, str, dumps) == Err(NotNullFailed("instrument"))
  {
    if Column(data["instrument"], str).Some? && UploadedConfig(configs, id, data, str, dumps).Err? {
      var prefix := "IntegrityError: NOT NULL constraint failed: ";
      assert NotNullFailed("instrument") == prefix + "instrument" && (prefix + "instrument")[|prefix|] == 'i';
      assert NotNullFailed("filters") == prefix + "filters" && (prefix + "filters")[|prefix|] == 'f';
      assert NotNullFailed("dispersers") == prefix + "dispersers" && (prefix + "dispersers")[|prefix|] == 'd';
    }
  }

  /** The new version never collides: `(instrument, version)` stays unique. */
  lemma UploadKeepsUnique(configs: seq<ConfigRow>, id: nat, data: map<string, Value>,
                          str: Value -> string, dumps: map<string, Value> -> string)
    requires UniqueBy(configs, ConfigKey)
    ensures var u := UploadedConfig(configs, id, data, str, dumps);
      u.Ok? ==> UniqueBy(configs + [u.value], ConfigKey)
  {
    var u := UploadedConfig(configs, id, data, str, dumps);
    if u.Ok? {
      forall c | c in configs
        ensures ConfigKey(c) != ConfigKey(u.value)
      {
      }
      UniqueByAppend(configs, ConfigKey, u.value);
    }
  }

  /** The body `retrieve` answers with. */
  function ConfigBody(c: ConfigRow): Value {
    VDict(map["name" := VStr(c.instrument), "filters" := c.filters, "dispersers" := c.dispersers, "aux" := c.aux])
  }

  function SameVersion(instrument: string, version: int): ConfigRow -> bool {
    (c: ConfigRow) => c.instrument == instrument && c.version == version
  }

  /**
   * `retrieve`: with a `version` parameter exactly that config (404 when it
   * does not exist), otherwise the newest one; with no config at all the
   * view fails on `None`.
   */
  function InstrumentRetrieve(configs: seq<ConfigRow>, pk: string, version: Option<string>): Response {
    if Truthy(version) then
      match PyInt(version.value)
      case None => Raised("ValueError: Field 'version' expected a number")
      case Some(n) =>
        match Get(configs, SameVersion(pk, n))
        case Found(c) => Response(200, ConfigBody(c))
        case DoesNotExist => NotFound("InstrumentConfig")
        case MultipleReturned => Raised("MultipleObjectsReturned")
    else
      match Latest(configs, pk)
      case None => Raised("AttributeError: 'NoneType' object has no attribute 'instrument'")
      case Some(c) => Response(200, ConfigBody(c))
  }

  /** Without a version, the reply is the body of a config of the highest version of that instrument. */
  lemma RetrieveLatest(configs: seq<ConfigRow>, pk: string, version: Option<string>)
    requires !Truthy(version)
    ensures (forall c :: c in configs ==> c.instrument != pk) ==> InstrumentRetrieve(configs, pk, version).Raised?
    ensures (exists c :: c in configs && c.instrument == pk) ==>
      exists c :: && c in configs && c.instrument == pk
                  && (forall d :: d in configs && d.instrument == pk ==> d.version <= c.version)
                  && InstrumentRetrieve(configs, pk, version) == Response(200, ConfigBody(c))
  {
    var l := Latest(configs, pk);
    if l.Some? {
      assert InstrumentRetrieve(configs, pk, version) == Response(200, ConfigBody(l.value));
    }
  }

  /** With a version, the reply is exactly the config of that version. */
  lemma RetrieveExact(configs: seq<ConfigRow>, c: ConfigRow)
    requires UniqueBy(configs, ConfigKey) && c in configs
    ensures InstrumentRetrieve(configs, c.instrument, Some(IntText(c.version))) == Response(200, ConfigBody(c))
  {
    PyIntIntText(c.version);
    var i :| 0 <= i < |configs| && configs[i] == c;
    forall j | 0 <= j < |configs| && j != i
      ensures !SameVersion(c.instrument, c.version)(configs[j])
    {
      if i < j {
        assert ConfigKey(configs[i]) != ConfigKey(configs[j]);
      } else {
        assert ConfigKey(configs[j]) != ConfigKey(configs[i]);
      }
    }
    GetUnique(configs, SameVersion(c.instrument, c.version), i);
  }

  /** A version that was never uploaded is a 404. */
  lemma RetrieveUnknownVersion(configs: seq<ConfigRow>, pk: string, n: int)
    requires forall c :: c in configs ==> !(c.instrument == pk && c.version == n)
    ensures InstrumentRetrieve(configs, pk, Some(IntText(n))) == NotFound("InstrumentConfig")
  {
    PyIntIntText(n);
    GetFacts(configs, SameVersion(pk, n));
  }

  /** Right after an upload, retrieving without a version answers with the uploaded config. */
  lemma UploadThenRetrieve(configs: seq<ConfigRow>, id: nat, data: map<string, Value>,
                           str: Value -> string, dumps: map<string, Value> -> string)
    requires UploadedConfig(configs, id, data, str, dumps).Ok?
    ensures var row := UploadedConfig(configs, id, data, str, dumps).value;
      InstrumentRetrieve(configs + [row], row.instrument, None) == Response(200, ConfigBody(row))
  {
    var row := UploadedConfig(configs, id, data, str, dumps).value;
    assert row in configs + [row];
  }

  // ----- ObjectViewSet.upload -----

  function ListNamedBy(name: string, user: string): ObjectListRow -> bool {
    (l: ObjectListRow) => l.name == name && l.userId == user
  }

  predicate HasList(lists: seq<ObjectListRow>, name: string, user: string) {
    exists l :: l in lists && l.name == name && l.userId == user
  }

  function DuplicateList(name: string, user: string): Response {
    Response(400, Message("error", "List '" + name + "' already exists for user '" + user + "'."))
  }

  /**
   * The template's object upload: a duplicate list is refused; otherwise the
   * list is created and the rows loop runs over the raw bytes of the file,
   * which succeeds only for an empty file (a byte has no `pop`).
   */
  function ListUploaded(lists: seq<ObjectListRow>, id: nat, name: string, user: string, file: seq<bv8>)
    : (seq<ObjectListRow>, Response)
  {
    if HasList(lists, name, user) then (lists, DuplicateList(name, user))
    else
      var created := lists + [ObjectListRow(id, name, user, [])];
      if |file| == 0 then (created, Response(201, VDict(map["created" := VList([]), "obj_list" := VStr(name)])))
      else (created, Raised("AttributeError: 'int' object has no attribute 'pop'"))
  }

  /** A duplicate creates nothing; a new list is appended and keeps `(name, user_id)` unique. */
  lemma ListUploadedFacts(lists: seq<ObjectListRow>, id: nat, name: string, user: string, file: seq<bv8>)
    ensures var (lists', r) := ListUploaded(lists, id, name, user, file);
      && (HasList(lists, name, user) <==> r.Response? && r.status == 400)
      && (HasList(lists, name, user) ==> lists' == lists)
      && (UniqueBy(lists, ListKey) ==> UniqueBy(lists', ListKey))
  {
    if !HasList(lists, name, user) {
      var row := ObjectListRow(id, name, user, []);
      if UniqueBy(lists, ListKey) {
        UniqueByAppend(lists, ListKey, row);
      }
    }
  }

  // ----- ObjectViewSet.edit_obj -----

  /** The four keys `edit_obj` assigns to columns. */
  const EditColumns: set<string> := {"type", "ra", "dec", "priority"}

  /**
   * The object `edit_obj` saves, or the exception that stops it: each column
   * key present is converted and assigned, the keys left over are merged
   * into `aux`, which must then be a JSON object, and the save refuses a
   * JSON null type, since `type` is a NOT NULL column.
   */
  function Edited(o: ObjectRow, fields: map<string, Value>, str: Value -> string): Result<ObjectRow, string> {
    match Converted(o, fields, str)
    case Err(e) => Err(e)
    case Ok(o') =>
      match Merged(o', fields - EditColumns)
      case Err(e) => Err(e)
      case Ok(o'') => if NullType(fields) then Err(NotNullFailed("type")) else Ok(o'')
  }

  /** The request sets `type` to JSON null. */
  predicate NullType(fields: map<string, Value>) {
    "type" in fields && fields["type"].VNull?
  }

  /** The column keys present, converted and assigned in the order `edit_obj` pops them. */
  function Converted(o: ObjectRow, fields: map<string, Value>, str: Value -> string): Result<ObjectRow, string> {
    // a null type never reaches the table: `Edited` refuses it at the save
    var kind := if "type" in fields && !fields["type"].VNull? then Column(fields["type"], str).value else o.kind;
    var ra := if "ra" in fields then ToFloat(fields["ra"]) else Some(o.ra);
    var dec := if "dec" in fields then ToFloat(fields["dec"]) else Some(o.dec);
    var pri := if "priority" in fields then ToInt(fields["priority"]) else Some(o.priority);
    if ra.None? then Err("ValueError: ra")
    else if dec.None? then Err("ValueError: dec")
    else if pri.None? then Err("ValueError: priority")
    else Ok(o.(kind := kind, ra := ra.value, dec := dec.value, priority := pri.value))
  }

  /** `obj.aux.update(rest)` when keys are left over. */
  function Merged(o: ObjectRow, rest: map<string, Value>): Result<ObjectRow, string> {
    if rest == map[] then Ok(o)
    else if o.aux.VDict? then Ok(o.(aux := VDict(o.aux.fields + rest)))
    else Err("AttributeError: 'aux' has no attribute 'update'")
  }

  /**
   * The name, owner and id never change; a column absent from the request
   * keeps its value and a present one takes the converted value; a leftover
   * key overrides its `aux` entry and the other `aux` entries stay.
   */
  lemma EditedFacts(o: ObjectRow, fields: map<string, Value>, str: Value -> string)
    requires Edited(o, fields, str).Ok?
    ensures var o' := Edited(o, fields, str).value;
      && o'.id == o.id && o'.name == o.name && o'.userId == o.userId
      && ("type" in fields ==> Column(fields["type"], str) == Some(o'.kind)) && ("type" !in fields ==> o'.kind == o.kind)
      && ("ra" in fields ==> ToFloat(fields["ra"]) == Some(o'.ra)) && ("ra" !in fields ==> o'.ra == o.ra)
      && ("dec" in fields ==> ToFloat(fields["dec"]) == Some(o'.dec)) && ("dec" !in fields ==> o'.dec == o.dec)
      && ("priority" in fields ==> ToInt(fields["priority"]) == Some(o'.priority))
      && ("priority" !in fields ==> o'.priority == o.priority)
      && (fields.Keys <= EditColumns ==> o'.aux == o.aux)
      && (!(fields.Keys <= EditColumns) ==>
            && o.aux.VDict? && o'.aux.VDict?
            && (forall k :: k in fields && k !in EditColumns ==> k in o'.aux.fields && o'.aux.fields[k] == fields[k])
            && (forall k :: k in o.aux.fields && (k !in fields || k in EditColumns) ==> k in o'.aux.fields && o'.aux.fields[k] == o.aux.fields[k]))
  {
    var rest := fields - EditColumns;
    if !(fields.Keys <= EditColumns) {
      var k :| k in fields && k !in EditColumns;
      assert k in rest;
    } else {
      assert rest == map[];
    }
  }

  /** A JSON null type never saves: the edit fails, with the NOT NULL refusal unless an earlier step raised. */
  lemma EditRefusesNullType(o: ObjectRow, fields: map<string, Value>, str: Value -> string)
    requires NullType(fields)
    ensures Edited(o, fields, str).Err?
    ensures Converted(o, fields, str).Ok? && Merged(Converted(o, fields, str).value, fields - EditColumns).Ok? ==>
      Edited(o, fields, str).error == NotNullFailed("type")
  {
  }

  /** What `Column` refuses, the edit refuses: a JSON null type fails it. */
  lemma NullTypeRefused(o: ObjectRow, fields: map<string, Value>, str: Value -> string)
    requires "type" in fields
    ensures Column(fields["type"], str).None? ==> Edited(o, fields, str).Err?
    ensures Column(fields["type"], str).Some? ==> Edited(o, fields, str) != Err(NotNullFailed("type"))
  {
    if Column(fields["type"], str).None? {
      EditRefusesNullType(o, fields, str);
    }
  }

  /** `objects_list.get(name=...)`; a null name matches no object. */
  function InList(list: ObjectListRow, name: Option<string>): ObjectRow -> bool {
    (o: ObjectRow) => o.id in list.members && name == Some(o.name)
  }

  /** `get_object_or_404(ObjectList, name=..., user_id=...)`; a null name or an absent header matches no list. */
  function UserListNamed(name: Option<string>, user: Option<string>): ObjectListRow -> bool {
    (l: ObjectListRow) => user.Some? && name == Some(l.name) && l.userId == user.value
  }

  /** `edit_obj` on the objects and lists tables: the new objects table and the reply. */
  function EditObjSpec(objects: seq<ObjectRow>, lists: seq<ObjectListRow>, data: map<string, Value>,
                       userId: Option<string>, str: Value -> string): (seq<ObjectRow>, Response)
  {
    if "list_name" !in data then (objects, Raised("KeyError: 'list_name'"))
    else if "obj_name" !in data then (objects, Raised("KeyError: 'obj_name'"))
    else
      var listName, objName := Column(data["list_name"], str), Column(data["obj_name"], str);
      match Get(lists, UserListNamed(listName, userId))
      case DoesNotExist => (objects, NotFound("ObjectList"))
      case MultipleReturned => (objects, Raised("MultipleObjectsReturned"))
      case Found(list) =>
        match Get(objects, InList(list, objName))
        case DoesNotExist => (objects, Raised("Object.DoesNotExist"))
        case MultipleReturned => (objects, Raised("MultipleObjectsReturned"))
        case Found(o) => EditSaved(objects, o, data - {"list_name", "obj_name"}, o.name, str)
  }

  /** The fetched object edited and saved, or the exception that stops the edit. */
  function EditSaved(objects: seq<ObjectRow>, o: ObjectRow, fields: map<string, Value>, objName: string,
                     str: Value -> string): (seq<ObjectRow>, Response)
  {
    match Edited(o, fields, str)
    case Err(e) => (objects, Raised(e))
    case Ok(o') => (Saved(objects, o'), Response(200, Message("message", "Object '" + objName + "' updated")))
  }

  /**
   * An edit changes at most the rows of one object of the named list, keeps
   * every id, and does nothing at all unless it answers 200.
   */
  lemma EditObjTouchesOne(objects: seq<ObjectRow>, lists: seq<ObjectListRow>, data: map<string, Value>,
                          userId: Option<string>, str: Value -> string)
    ensures var (objects', r) := EditObjSpec(objects, lists, data, userId, str);
      && |objects'| == |objects|
      && (forall k :: 0 <= k < |objects| ==> objects'[k].id == objects[k].id)
      && (!(r.Response? && r.status == 200) ==> objects' == objects)
      && (r.Response? && r.status == 200 ==>
            exists o :: o in objects && Column(data["obj_name"], str) == Some(o.name) &&
              forall k :: 0 <= k < |objects| && objects[k].id != o.id ==> objects'[k] == objects[k])
  {
    var (objects', r) := EditObjSpec(objects, lists, data, userId, str);
    if "list_name" in data && "obj_name" in data {
      var listName, objName := Column(data["list_name"], str), Column(data["obj_name"], str);
      var gl := Get(lists, UserListNamed(listName, userId));
      if gl.Found? {
        var go := Get(objects, InList(gl.row, objName));
        GetFacts(objects, InList(gl.row, objName));
        if go.Found? {
          var e := Edited(go.row, data - {"list_name", "obj_name"}, str);
          if e.Ok? {
            EditedFacts(go.row, data - {"list_name", "obj_name"}, str);
            assert objects' == Saved(objects, e.value);
          }
        }
      }
    }
  }

  /** When the named list is not the caller's, the reply is a 404 and nothing changes. */
  lemma EditObjUnknownList(objects: seq<ObjectRow>, lists: seq<ObjectListRow>, data: map<string, Value>,
                           userId: Option<string>, str: Value -> string)
    requires "list_name" in data && "obj_name" in data
    requires forall l :: l in lists ==> !UserListNamed(Column(data["list_name"], str), userId)(l)
    ensures EditObjSpec(objects, lists, data, userId, str) == (objects, NotFound("ObjectList"))
  {
    GetFacts(lists, UserListNamed(Column(data["list_name"], str), userId));
  }

  // ----- MaskViewSet.delete_mask -----

  function ProjectNamed(name: string, user: string): ProjectRow -> bool {
    (p: ProjectRow) => p.name == name && p.userId == user
  }

  function MaskOfProject(project: ProjectRow, name: string): MaskRow -> bool {
    (m: MaskRow) => m.id in project.masks && m.name == name
  }

  const MissingParameters := Response(400, Message("error", "missing required parameters"))
  const MaskNotInProject := Response(404, Message("error", "mask not found in this project"))

  /** `delete_mask` on the projects and masks tables: the new tables and the reply. */
  function DeleteMaskSpec(projects: seq<ProjectRow>, masks: seq<MaskRow>,
                          userId: Option<string>, maskName: Option<string>, projName: Option<string>)
    : (seq<ProjectRow>, seq<MaskRow>, Response)
  {
    if !(Truthy(userId) && Truthy(maskName) && Truthy(projName)) then (projects, masks, MissingParameters)
    else
      match Get(projects, ProjectNamed(projName.value, userId.value))
      case DoesNotExist => (projects, masks, NotFound("Project"))
      case MultipleReturned => (projects, masks, Raised("MultipleObjectsReturned"))
      case Found(p) =>
        match Get(masks, MaskOfProject(p, maskName.value))
        case DoesNotExist => (projects, masks, MaskNotInProject)
        case MultipleReturned => (projects, masks, Raised("MultipleObjectsReturned"))
        case Found(m) =>
          (WithoutMask(projects, m.id), Filter(masks, MaskIdIsNot(m.id)),
           Response(200, Message("message", "mask '" + maskName.value + "' deleted successfully")))
  }

  /** A missing parameter is a 400 before any lookup, and changes nothing. */
  lemma DeleteMaskNeedsParameters(projects: seq<ProjectRow>, masks: seq<MaskRow>,
                                  userId: Option<string>, maskName: Option<string>, projName: Option<string>)
    ensures var (projects', masks', r) := DeleteMaskSpec(projects, masks, userId, maskName, projName);
      (r == MissingParameters <==> !(Truthy(userId) && Truthy(maskName) && Truthy(projName)))
      && (r == MissingParameters ==> projects' == projects && masks' == masks)
  {
  }

  /** A mask name the project does not hold is a 404, and changes nothing. */
  lemma DeleteMaskAbsent(projects: seq<ProjectRow>, masks: seq<MaskRow>, user: string, maskName: string, projName: string,
                         p: ProjectRow)
    requires user != "" && maskName != "" && projName != ""
    requires Get(projects, ProjectNamed(projName, user)) == Found(p)
    requires forall m :: m in masks ==> !(m.id in p.masks && m.name == maskName)
    ensures DeleteMaskSpec(projects, masks, Some(user), Some(maskName), Some(projName)) == (projects, masks, MaskNotInProject)
  {
    GetFacts(masks, MaskOfProject(p, maskName));
  }

  /**
   * A deletion that answers 200 took a mask of the named project out of the
   * masks table and out of every project, and kept every other row.
   */
  lemma DeleteMaskRemoves(projects: seq<ProjectRow>, masks: seq<MaskRow>,
                          userId: Option<string>, maskName: Option<string>, projName: Option<string>)
    ensures var (projects', masks', r) := DeleteMaskSpec(projects, masks, userId, maskName, projName);
      r.Response? && r.status == 200 ==>
        exists p, m :: MaskDeleted(projects, masks, projects', masks', userId.value, maskName.value, projName.value, p, m)
  {
    var (projects', masks', r) := DeleteMaskSpec(projects, masks, userId, maskName, projName);
    if r.Response? && r.status == 200 {
      var p := Get(projects, ProjectNamed(projName.value, userId.value)).row;
      GetFacts(projects, ProjectNamed(projName.value, userId.value));
      var m := Get(masks, MaskOfProject(p, maskName.value)).row;
      GetFacts(masks, MaskOfProject(p, maskName.value));
      assert projects' == WithoutMask(projects, m.id) && masks' == Filter(masks, MaskIdIsNot(m.id));
      assert MaskDeleted(projects, masks, projects', masks', userId.value, maskName.value, projName.value, p, m);
    }
  }

  /**
   * `p` is the user's project named `projName`, `m` its mask named
   * `maskName`; `m` is gone from the masks table and from every project's
   * masks, and nothing else is.
   */
  ghost predicate MaskDeleted(projects: seq<ProjectRow>, masks: seq<MaskRow>, projects': seq<ProjectRow>, masks': seq<MaskRow>,
                              userId: string, maskName: string, projName: string, p: ProjectRow, m: MaskRow) {
    && p in projects && p.name == projName && p.userId == userId
    && m in masks && m.id in p.masks && m.name == maskName
    && (forall x :: x in masks' <==> x in masks && x.id != m.id)
    && |projects'| == |projects|
    && (forall k :: 0 <= k < |projects| ==> forall x :: x in projects'[k].masks <==> x in projects[k].masks && x != m.id)
  }

  /** `InstrumentViewSet.upload`: the next version is derived from the table, then the row is created. */
  method InstrumentUpload(db: Database, data: map<string, Value>, str: Value -> string, dumps: map<string, Value> -> string)
    returns (r: Response)
    modifies db
    ensures match UploadedConfig(old(db.configs), old(db.nextId), data, str, dumps)
      case Err(e) => r == Raised(e) && db.configs == old(db.configs) && db.nextId == old(db.nextId)
      case Ok(row) =>
        && r == Response(201, Message("created", row.instrument + " v" + IntText(row.version)))
        && db.configs == old(db.configs) + [row] && db.nextId == old(db.nextId) + 1
    ensures db.objects == old(db.objects) && db.lists == old(db.lists)
    ensures db.projects == old(db.projects) && db.masks == old(db.masks)
    ensures old(db.Valid()) ==> db.Valid()
  {
    if "instrument" !in data {
      return Raised("KeyError: 'instrument'");
    }
    var given := Column(data["instrument"], str);
    var version: int;
    if given.Some? {
      match Latest(db.configs, given.value) {
        case Some(existing) => version := existing.version + 1;
        case None => version := 1;
      }
    } else {
      // `instrument IS NULL` matches no row
      version := 1;
    }
    var rest := data - {"instrument"};
    if "filters" !in rest {
      return Raised("KeyError: 'filters'");
    }
    var filters := rest["filters"];
    rest := rest - {"filters"};
    if "dispersers" !in rest {
      return Raised("KeyError: 'dispersers'");
    }
    var dispersers := rest["dispersers"];
    rest := rest - {"dispersers"};
    if given.None? {
      return Raised(NotNullFailed("instrument"));
    }
    if filters.VNull? {
      return Raised(NotNullFailed("filters"));
    }
    if dispersers.VNull? {
      return Raised(NotNullFailed("dispersers"));
    }
    var instrument := given.value;
    assert rest == data - ConfigColumns;
    if db.Valid() {
      UploadKeepsUnique(db.configs, db.nextId, data, str, dumps);
    }
    db.configs := db.configs + [ConfigRow(db.nextId, instrument, version, filters, dispersers, VStr(dumps(rest)))];
    db.nextId := db.nextId + 1;
    r := Response(201, Message("created", instrument + " v" + IntText(version)));
  }

  /** The template's `ObjectViewSet.upload`: the duplicate check, then the list is created. */
  method ObjectUpload(db: Database, listName: string, userId: string, file: seq<bv8>) returns (r: Response)
    modifies db
    ensures (db.lists, r) == ListUploaded(old(db.lists), old(db.nextId), listName, userId, file)
    ensures db.nextId == if HasList(old(db.lists), listName, userId) then old(db.nextId) else old(db.nextId) + 1
    ensures db.objects == old(db.objects) && db.configs == old(db.configs)
    ensures db.projects == old(db.projects) && db.masks == old(db.masks)
    ensures old(db.Valid()) ==> db.Valid()
  {
    var existing := Filter(db.lists, ListNamedBy(listName, userId));
    if |existing| > 0 {
      assert existing[0] in existing;
      return DuplicateList(listName, userId);
    }
    var id := db.CreateList(listName, userId);
    if |file| == 0 {
      r := Response(201, VDict(map["created" := VList([]), "obj_list" := VStr(listName)]));
    } else {
      r := Raised("AttributeError: 'int' object has no attribute 'pop'");
    }
  }

  /**
   * The four column pops and assignments of `edit_obj` on the fetched object
   * in memory; a JSON null type leaves the type as it was, since the save
   * refuses it in any case.
   */
  method AssignColumns(found: ObjectRow, fields: map<string, Value>, str: Value -> string)
    returns (converted: Result<ObjectRow, string>)
    ensures converted == Converted(found, fields, str)
  {
    var request := fields;
    var obj := found;
    if "type" in request {
      match Column(request["type"], str) {
        case Some(kind) => obj := obj.(kind := kind);
        case None =>
      }
      request := request - {"type"};
    }
    if "ra" in request {
      var ra := ToFloat(request["ra"]);
      if ra.None? {
        return Err("ValueError: ra");
      }
      obj := obj.(ra := ra.value);
      request := request - {"ra"};
    }
    if "dec" in request {
      var dec := ToFloat(request["dec"]);
      if dec.None? {
        return Err("ValueError: dec");
      }
      obj := obj.(dec := dec.value);
      request := request - {"dec"};
    }
    if "priority" in request {
      var pri := ToInt(request["priority"]);
      if pri.None? {
        return Err("ValueError: priority");
      }
      obj := obj.(priority := pri.value);
      request := request - {"priority"};
    }
    return Ok(obj);
  }

  /**
   * The pops and assignments of `edit_obj` on the fetched object, the merge
   * of the leftover keys into `aux`, and the NOT NULL check of the save.
   */
  method ApplyEdits(found: ObjectRow, fields: map<string, Value>, str: Value -> string)
    returns (edited: Result<ObjectRow, string>)
    ensures edited == Edited(found, fields, str)
  {
    var converted := AssignColumns(found, fields, str);
    if converted.Err? {
      return Err(converted.error);
    }
    var obj := converted.value;
    var request := fields - EditColumns;
    if request != map[] {
      if !obj.aux.VDict? {
        return Err("AttributeError: 'aux' has no attribute 'update'");
      }
      obj := obj.(aux := VDict(obj.aux.fields + request));
    }
    if "type" in fields && fields["type"].VNull? {
      return Err(NotNullFailed("type"));
    }
    return Ok(obj);
  }

  /**
   * `edit_obj`: the two names are popped, the list and the object looked up,
   * each column key popped and assigned to the fetched object, the leftover
   * keys merged into its `aux`, and the object saved.
   */
  method EditObj(db: Database, data: map<string, Value>, userId: Option<string>, str: Value -> string)
    returns (r: Response)
    modifies db
    ensures (db.objects, r) == EditObjSpec(old(db.objects), old(db.lists), data, userId, str)
    ensures db.lists == old(db.lists) && db.configs == old(db.configs)
    ensures db.projects == old(db.projects) && db.masks == old(db.masks) && db.nextId == old(db.nextId)
    ensures old(db.Valid()) ==> db.Valid()
  {
    if "list_name" !in data {
      return Raised("KeyError: 'list_name'");
    }
    if "obj_name" !in data {
      return Raised("KeyError: 'obj_name'");
    }
    var listName, objName := Column(data["list_name"], str), Column(data["obj_name"], str);
    var request := data - {"list_name", "obj_name"};
    match Get(db.lists, UserListNamed(listName, userId)) {
      case DoesNotExist => return NotFound("ObjectList");
      case MultipleReturned => return Raised("MultipleObjectsReturned");
      case Found(list) =>
        match Get(db.objects, InList(list, objName)) {
          case DoesNotExist => return Raised("Object.DoesNotExist");
          case MultipleReturned => return Raised("MultipleObjectsReturned");
          case Found(found) =>
            var edited := ApplyEdits(found, request, str);
            if edited.Err? {
              return Raised(edited.error);
            }
            db.SaveObject(edited.value);
            return Response(200, Message("message", "Object '" + found.name + "' updated"));
        }
    }
  }

  // ----- MaskViewSet.delete_mask on the database -----

  /** `project.masks.remove(mask)`: the link between the project and the mask goes. */
  method Unlink(db: Database, projectId: nat, maskId: nat)
    modifies db
    ensures |db.projects| == |old(db.projects)|
    ensures forall k :: 0 <= k < |db.projects| ==>
      var p := old(db.projects[k]);
      db.projects[k] == if p.id == projectId then p.(masks := RemoveMember(p.masks, maskId)) else p
    ensures db.objects == old(db.objects) && db.lists == old(db.lists) && db.masks == old(db.masks)
    ensures db.configs == old(db.configs) && db.nextId == old(db.nextId)
  {
    db.projects := seq(|db.projects|, k requires 0 <= k < |db.projects| reads db =>
      if db.projects[k].id == projectId then db.projects[k].(masks := RemoveMember(db.projects[k].masks, maskId))
      else db.projects[k]);
  }

  /** `delete_mask`: the parameter check, the two lookups, then the unlink and the delete. */
  method DeleteMask(db: Database, userId: Option<string>, maskName: Option<string>, projName: Option<string>)
    returns (r: Response)
    modifies db
    ensures (db.projects, db.masks, r) == DeleteMaskSpec(old(db.projects), old(db.masks), userId, maskName, projName)
    ensures db.objects == old(db.objects) && db.lists == old(db.lists)
    ensures db.configs == old(db.configs) && db.nextId == old(db.nextId)
    ensures old(db.Valid()) ==> db.Valid()
  {
    if !(Truthy(userId) && Truthy(maskName) && Truthy(projName)) {
      return MissingParameters;
    }
    match Get(db.projects, ProjectNamed(projName.value, userId.value)) {
      case DoesNotExist => return NotFound("Project");
      case MultipleReturned => return Raised("MultipleObjectsReturned");
      case Found(p) =>
        match Get(db.masks, MaskOfProject(p, maskName.value)) {
          case DoesNotExist => return MaskNotInProject;
          case MultipleReturned => return Raised("MultipleObjectsReturned");
          case Found(m) =>
            ghost var projects0, valid0 := db.projects, db.Valid();
            Unlink(db, p.id, m.id);
            db.DeleteMask(m.id);
            forall k | 0 <= k < |projects0|
              ensures db.projects[k] == WithoutMask(projects0, m.id)[k]
            {
              RemoveMemberTwice(projects0[k].masks, m.id);
            }
            assert db.projects == WithoutMask(projects0, m.id);
            if valid0 {
              UniqueByFilter(old(db.masks), MaskKey, MaskIdIsNot(m.id));
              UniqueByFilter(old(db.masks), MaskId, MaskIdIsNot(m.id));
              UniqueByRekeyed(projects0, db.projects, ProjectKey);
            }
            return Response(200, Message("message", "mask '" + maskName.value + "' deleted successfully"));
        }
    }
  }
}
