# Carnegie slit-mask tools, modelled in Dafny

This project models the parts of the Carnegie Observatories slit-mask
system that have a precise meaning:

- the slit preview of the web front end: converting sexagesimal coordinates
  to degrees, building the rotated rectangle of a slit, drawing one outline
  and one label per slit, and the fetch / draw / dispose life cycle of the
  component;
- the Carnegie `.obj` object-list text format: the line parser
  (`obj_to_json`, and its copy `parse_obj_file`), the older two-line-stride
  reader, the line writer of `generate_obj_file`, and the `.obw` use-count
  classifier `categorize_objs`;
- the rotator-angle decision table `check_rotator_conflict`;
- the record-table rules of the REST views: versioned instrument
  configurations, the duplicate check and get-or-create loop of object-list
  uploads, viewing lists, editing one object, deleting a mask, and listing
  a user's projects.

Database tables are sequences of rows held by a `Database` class
(`tables.dfy`). Its `Valid` invariant is the uniqueness constraints of the
models: lists and projects are unique per `(name, user_id)`, configs per
`(instrument, version)`, masks per `(user_id, name)`, and every id is below
the next free id. A view is a method that changes the tables. It is proved
equal to a function of the old tables, and that function's properties are
proved as lemmas. Exceptions that escape a view are the `Raised` reply.

Files, one module each:

| file | models |
|---|---|
| `wrappers.dfy` | `Option` and `Result` |
| `text.dfy`, `pytext.dfy` | digits, decimals, trimming and splitting; Python's `str.strip`, `str.splitlines`, `float()` and `int()` on plain literals |
| `sky_coords.dfy` | `raStringToDeg`, `decStringToDeg`, `arcminToDeg`, `computeRectangleCorners` |
| `slit_overlay.dfy` | the drawing loop and the `AladinSlits` component as the class `SlitsView` |
| `obj_format.dfy` | `obj_to_json`, the line writer of `generate_obj_file`, and the write-then-read round trip |
| `mask_obj_to_json.dfy` | the mask service's copy of the line parser |
| `obj_from_file.dfy` | the two-line-stride `parse_obj_file` |
| `categorize.dfy` | `categorize_objs` |
| `rotator.dfy` | `validate` and `check_rotator_conflict` |
| `tables.dfy`, `requests.dfy` | rows, `filter`/`get`, the `Database` class, replies, and the conversion of request values |
| `template_views.dfy` | the template service's views |
| `maskgen_views.dfy` | the mask-generation service's object upload and `view_list` |

Behaviours of the code that the model keeps as written:

- A 404 response is not treated apart from other failed fetches: any
  non-OK status sets the error flag.
- An older fetch that settles late is not discarded.
- A slit with malformed coordinates is not skipped. NaN propagates into its
  corners and its label.
- Right ascension is not normalised into [0, 360).
- The template service's object upload creates the list before its loop
  over the raw bytes of the file fails.

## Model

| member | source | states |
|---|---|---|
| SkyCoords.RaFromFields | frontend/src/AladinSlits.tsx:30-33 | for three colon-free fields that `Number` reads as h, m and s, the right ascension is `(h + m/60 + s/3600) * 15` |
| SkyCoords.RaExample | frontend/src/AladinSlits.tsx:30-33 | `"10:00:00"` gives 150 degrees |
| SkyCoords.RaTwoFieldsIsNaN | frontend/src/AladinSlits.tsx:30-33 | with only two fields the missing seconds are `undefined` and the result is NaN |
| SkyCoords.DecFromFields | frontend/src/AladinSlits.tsx:35-46 | an unsigned `d:m:s` declination is `d + m/60 + s/3600` |
| SkyCoords.DecUnsigned | frontend/src/AladinSlits.tsx:35-46 | text without a sign is the magnitude of its trimmed self |
| SkyCoords.DecSigns | frontend/src/AladinSlits.tsx:35-46 | a leading `-` negates the whole magnitude and a leading `+` changes nothing, so `dec("-"+t) == -dec(t)` and `dec("+"+t) == dec(t)` |
| SkyCoords.DecUnsignedExample | frontend/src/AladinSlits.tsx:35-46 | `"02:23:00"` gives `2 + 23/60` |
| SkyCoords.DecPlusExample | frontend/src/AladinSlits.tsx:35-46 | `"+02:23:00"` gives `2 + 23/60` |
| SkyCoords.DecPlusSign | frontend/src/AladinSlits.tsx:35-46 | `"+02:23:00"` and `"02:23:00"` give the same value |
| SkyCoords.DecHalfDegreeExample | frontend/src/AladinSlits.tsx:35-46 | `"00:30:00"` gives 0.5 |
| SkyCoords.DecNegativeExample | frontend/src/AladinSlits.tsx:35-46 | `"-00:30:00"` gives -0.5: the sign applies to the minutes as well |
| SkyCoords.DecMinusSign | frontend/src/AladinSlits.tsx:35-46 | `"-00:30:00"` is the negation of `"00:30:00"` |
| SkyCoords.ArcminToDeg | frontend/src/AladinSlits.tsx:48-50 | total; the result times 60 is the input |
| SkyCoords.ComputeRectangleCorners | frontend/src/AladinSlits.tsx:55-79 | exactly four corners |
| SkyCoords.CornersCentroid | frontend/src/AladinSlits.tsx:66-78 | for every rotation the corners average to `(ra, dec)` |
| SkyCoords.CornersSymmetric | frontend/src/AladinSlits.tsx:66-78 | `p0 + p2 == p1 + p3 == 2 * (ra, dec)` |
| SkyCoords.CornersAxisAligned | frontend/src/AladinSlits.tsx:66-78 | at angle 0 the corners are `(ra -/+ w/2, dec -/+ h/2)` in the order bottom-left, bottom-right, top-right, top-left |
| SkyCoords.CornersSides | frontend/src/AladinSlits.tsx:55-79 | when `c² + s² == 1`, the bottom and top sides have length `w`, the left and right sides length `h`, and adjacent sides are perpendicular |
| SlitOverlay.SlitPolygonOfDefinedCentre | frontend/src/AladinSlits.tsx:153-158 | with a defined centre, a slit's polygon is the rotated rectangle `width/60` across and `a_len/60` high around it |
| SlitOverlay.DrawingIgnoresUnusedFields | frontend/src/AladinSlits.tsx:152-168 | `b_len`, `x`, `y` and `type` do not affect the polygon or the label |
| SlitOverlay.InterleavedLayout | frontend/src/AladinSlits.tsx:152-169 | interleaving gives `2n` items: item `2j` comes from the first function of element `j`, item `2j+1` from the second |
| SlitOverlay.DrawnItemsLayout | frontend/src/AladinSlits.tsx:152-169 | the overlay has `2 * |slits|` items, in slit order: slit `j`'s polygon then its label at the slit centre showing its id |
| SlitOverlay.DrawSlits | frontend/src/AladinSlits.tsx:152-169 | the `forEach` loop appends exactly the items of `DrawnItems` |
| SlitOverlay.SlitsView.Mount | frontend/src/AladinSlits.tsx:84-93 | the first render: no slits, no error, the default centre, no effect and no viewer |
| SlitOverlay.SlitsView.FetchSettled | frontend/src/AladinSlits.tsx:96-125 | success stores the centre, sets `slits` to the features (or none) and clears the error; any failure sets the error and leaves the slits; an unmounted component ignores the update |
| SlitOverlay.SlitsView.RerunDrawEffect | frontend/src/AladinSlits.tsx:128-135 | the previous run is disposed; a continuation is registered only when the container exists (no error, some slits) and the library is loaded |
| SlitOverlay.SlitsView.InitResolved | frontend/src/AladinSlits.tsx:137-169 | a disposed or already-run continuation, or one with no container, draws nothing; otherwise one viewer is added, centred on the current mask data, with the effect's slits drawn |
| SlitOverlay.SlitsView.Unmount | frontend/src/AladinSlits.tsx:172-174 | the cleanup leaves no live effect and the component unmounted, and keeps everything else |
| SlitOverlay.ViewerOverlaysAreWhole | frontend/src/AladinSlits.tsx:129 | in every state the invariant allows, each viewer shows at least one slit, because the viewer is never initialised without slits |
| ObjFormat.Take | backend/maskgen_api/obs_file_formatting.py:60 | a maximal run of a character class and the rest of the text |
| ObjFormat.TakeConcat | backend/maskgen_api/obs_file_formatting.py:60 | a run followed by a character outside its class is taken whole |
| ObjFormat.MatchFields | backend/maskgen_api/obs_file_formatting.py:59-62 | a match captures a non-space name, a digit-and-dot ra, and a dec and priority of digits, dots and minus signs |
| ObjFormat.MatchLengths | backend/maskgen_api/obs_file_formatting.py:60 | the optional group captures two digit-and-dot tokens |
| ObjFormat.ParseLineCases | backend/maskgen_api/obs_file_formatting.py:45-75 | blank lines, unmarked lines and marked lines the pattern does not match are skipped; a parsed line has `TARGET` for `@` and `ALIGN` for `*`, the name captured after the marker, ra, dec and priority equal to `float()` of the captured tokens, and lengths exactly when the optional group matched, equal to `float()` of its two tokens |
| ObjFormat.FieldsToRecordCases | backend/maskgen_api/obs_file_formatting.py:65-74 | conversion succeeds exactly when `float()` accepts every captured token, and then keeps the name, the type and the numbers read; otherwise it reports a token `float()` refuses |
| ObjFormat.MatchFieldsTail | backend/maskgen_api/obs_file_formatting.py:59-62 | name, ra, dec and `Pri=` priority separated by single spaces, followed by text that cannot continue the priority, match with exactly those tokens, and the lengths are what the optional group finds in that text |
| ObjFormat.MatchWritten | backend/maskgen_api/obs_file_formatting.py:59-62 | the same line with nothing after the priority matches with no lengths |
| ObjFormat.ObjToJson | backend/maskgen_api/obs_file_formatting.py:40-77 | the loop returns the records of the accepted lines in order, or the first token `float()` rejects |
| ObjFormat.CollectAppend | backend/maskgen_api/obs_file_formatting.py:45-77 | the result for `a + b` is the result for `a` followed by that for `b`, with the first error winning |
| ObjFormat.ParseLinesAppend | backend/maskgen_api/obs_file_formatting.py:43-77 | lines are parsed independently and in input order |
| ObjFormat.ParseLinesBound | backend/maskgen_api/obs_file_formatting.py:43-77 | there are never more objects than lines |
| ObjFormat.SkippedLineIsDropped | backend/maskgen_api/obs_file_formatting.py:47-57 | a skipped line changes nothing in the output |
| ObjFormat.FirstErrorStays | backend/maskgen_api/obs_file_formatting.py:68-74 | once a prefix fails with a `ValueError`, the whole text fails the same way |
| ObjFormat.WriteObjects | backend/maskgen_api/obs_file_formatting.py:112-145 | the writing loop leaves the header and one line per fetched non-guide object, stopping at the first id not found exactly once |
| ObjFormat.GenerateObjText | backend/maskgen_api/obs_file_formatting.py:112-147 | ids come from the given list or from the named object list; a failed list lookup leaves only the header |
| ObjFormat.LookUpObjectsFacts | backend/maskgen_api/obs_file_formatting.py:120-121 | the fetched objects come from the table, in the order of the requested ids; the lookup is complete exactly when every id was fetched, and otherwise it names the first failing id |
| ObjFormat.WrittenLines | backend/maskgen_api/obs_file_formatting.py:120-145 | never more lines than objects, since a guide star writes none |
| ObjFormat.LookUpStops | backend/maskgen_api/obs_file_formatting.py:120-121 | once a `get(id=...)` fails, the later ids change nothing |
| ObjFormat.WrittenFileStops | backend/maskgen_api/obs_file_formatting.py:120-121 | once a `get(id=...)` fails, the file written so far is final |
| ObjFormat.ObjFileTextEmpty | backend/maskgen_api/obs_file_formatting.py:113 | with no objects only `&RADEGREE` is written |
| ObjFormat.ObjFileTextStep | backend/maskgen_api/obs_file_formatting.py:122-145 | one more object adds its line, or nothing for a `GUIDE` object |
| ObjFormat.ParseObjLine | backend/maskgen_api/obs_file_formatting.py:123-143 | the line written for a writable `ALIGN` or `TARGET` object parses back to its name, type, coordinates and priority |
| ObjFormat.HeaderSkipped | backend/maskgen_api/obs_file_formatting.py:113 | the parser skips the `&RADEGREE` header |
| ObjFormat.SplitLinesJoin | backend/maskgen_api/obs_file_formatting.py:145 | lines without line breaks, each written with a newline, split back into the same lines |
| ObjFormat.WriteThenRead | backend/maskgen_api/obs_file_formatting.py:113-145 | reading back a written file gives one record per non-guide object, in order, with the values written |
| ObjFormat.PriorityTextReads | backend/maskgen_api/obs_file_formatting.py:123 | `Pri={float(p)}` of an exactly representable integer reads back as `p` |
| MaskObjToJson.ParseObjFile | backend/mask/mask/obj_to_json.py:5-42 | the mask service's copy returns what `obj_to_json` returns, and never more objects than lines |
| ObjFromFile.EvenLines | backend/mask/mask/obj_from_file.py:10 | the loop examines lines 0, 2, 4 and so on: `ceil(n/2)` of them |
| ObjFromFile.ReadHeaderSkips | backend/mask/mask/obj_from_file.py:11-19 | a line that does not start with `@` after stripping, or a header without `alen`/`blen`, gives no object |
| ObjFromFile.ReadHeaderAgrees | backend/mask/mask/obj_from_file.py:15-28 | an accepted header is parsed by `obj_to_json` as the same object, as a `TARGET`, with its lengths |
| ObjFromFile.OddLinesIgnored | backend/mask/mask/obj_from_file.py:10 | changing a line at an odd index does not change the result |
| ObjFromFile.ReadSpecBound | backend/mask/mask/obj_from_file.py:10-29 | a file of `n` lines gives at most `ceil(n/2)` objects |
| ObjFromFile.ReadAllStops | backend/mask/mask/obj_from_file.py:22-26 | once a `float()` fails, the later headers change nothing |
| ObjFromFile.ReadLines | backend/mask/mask/obj_from_file.py:10-28 | the stride-2 loop returns the records of the examined lines in order, up to the first bad number |
| ObjFromFile.ParseObjFile | backend/mask/mask/obj_from_file.py:5-29 | the reader on the text's lines |
| ObwCategorize.MarkedNameCases | backend/maskgen_api/obs_file_formatting.py:25 | a line names an object exactly when a marker is followed by a non-space character; the name is the whole run of non-space characters after it |
| ObwCategorize.HasUseCountIff | backend/maskgen_api/obs_file_formatting.py:29 | the search finds `Use=` and a digit exactly when they start somewhere in the line |
| ObwCategorize.SortLineFound | backend/maskgen_api/obs_file_formatting.py:27-33 | a line naming exactly one object puts it on the mask when it has a use count, and in the excluded objects otherwise |
| ObwCategorize.SortLinesAddsObjects | backend/maskgen_api/obs_file_formatting.py:23-33 | every id added is an id of an object in the table |
| ObwCategorize.SortLinesStops | backend/maskgen_api/obs_file_formatting.py:34-36 | after the scan stops, the remaining lines change nothing |
| ObwCategorize.RunningFoundAll | backend/maskgen_api/obs_file_formatting.py:23-33 | while the scan has not stopped, every marked line read so far named exactly one object |
| ObwCategorize.MissingNameIsUnknown | backend/maskgen_api/obs_file_formatting.py:23-36 | a scan ended by a missing name ended on the first line naming no single object: every marked line before it names exactly one object, it names the missing name, and no object has that name |
| ObwCategorize.SortLinesPlaces | backend/maskgen_api/obs_file_formatting.py:22-33 | a scan that runs to the end puts the object of every line naming exactly one object on the mask when that line has a use count, and into the excluded objects otherwise |
| ObwCategorize.SortLinesProvenance | backend/maskgen_api/obs_file_formatting.py:22-33 | every id the scan adds to the mask's objects comes from a line with a use count naming exactly the object with that id, and every id it adds to the excluded objects from such a line without one |
| ObwCategorize.CategorizedKeepsUnique | backend/maskgen_api/obs_file_formatting.py:21-37 | mask and project uniqueness survives both the update and the deletion of the mask |
| ObwCategorize.AddToMask | backend/maskgen_api/obs_file_formatting.py:30-33 | `add` puts the id into exactly one of the mask's two relations |
| ObwCategorize.CategorizeObjs | backend/maskgen_api/obs_file_formatting.py:21-37 | the loop leaves the tables and reply of `Categorized`: relations are kept on success, the mask is deleted with the warning on a missing name, and `MultipleObjectsReturned` escapes |
| Rotator.Validate | backend/template/validator.py:1-2 | every setup is accepted |
| Rotator.Mod360 | backend/template/validator.py:18 | Python's float `% 360` lies in [0, 360) and differs from its argument by whole turns |
| Rotator.Mod360Zero | backend/template/validator.py:18 | the remainder is zero exactly for whole turns |
| Rotator.NormalizedAngle | backend/template/validator.py:18 | the normalised angle lies in [-180, 180) and differs from the angle by whole turns |
| Rotator.NeverOutOfRange | backend/template/validator.py:20-26 | the range-error branch is unreachable |
| Rotator.AtRangeEdge | backend/template/validator.py:29 | `abs(normalized) == 180` exactly when the angle is 180 plus whole turns |
| Rotator.RotatorDecision | backend/template/validator.py:28-55 | at a conflict angle, above 30 degrees of altitude gives `warning-red` and above the horizon gives `warning`, both suggesting 0; anything else falls through to the default advice |
| Rotator.DefaultAdvice | backend/template/validator.py:43-55 | the advice to use 270 comes exactly for declination below -29 at angle 90; everything else, declination -29 included, gives `ok` with no suggestion |
| Rotator.SuggestionInRange | backend/template/validator.py:25-52 | a suggested angle lies in [0, 360) |
| Requests.ToFloat | backend/maskgen_api/views.py:53-54 | `float()` of a number is itself, of a `bool` 1.0 or 0.0, of a string its plain-decimal value, and of null, a list or an object an error |
| Requests.Truncate | backend/maskgen_api/views.py:55 | `int()` of a float rounds toward zero |
| Requests.ToInt | backend/template/views.py:247 | `int()` of a float rounds toward zero, of a `bool` is 1 or 0, of a string must be an integer literal; null, lists and objects are errors |
| Requests.IntAgreesWithFloat | backend/maskgen_api/views.py:53-55 | whatever `int()` accepts `float()` accepts too, with the same value except for a number, which `int()` truncates to less than one away from it |
| Requests.Column | backend/maskgen_api/models.py:90-92 | what a text column receives: nothing (SQL NULL) exactly for JSON null, the string itself for a string, and `str` of any other value |
| Tables.Filter | backend/template/views.py:142 | `filter` keeps exactly the matching rows, and never more rows than the table has |
| Tables.GetFacts | backend/template/views.py:237-238 | `get` returns a matching row, and fails with `DoesNotExist` exactly when no row matches |
| Tables.GetUnique | backend/template/views.py:356 | with exactly one match, `get` returns it |
| Tables.AddMember | backend/maskgen_api/views.py:60 | `add` puts the id into the relation once; adding a member again changes nothing |
| Tables.RemoveMember | backend/template/views.py:342 | `remove` takes out exactly that id |
| Tables.AddMemberKeepsDistinct | backend/maskgen_api/views.py:60 | `add` keeps a relation free of duplicates |
| Tables.Saved | backend/template/views.py:251 | `save` replaces the row with the saved object's id and keeps every other row and every id |
| Tables.WithoutMask | backend/template/views.py:343 | deleting a mask keeps every project's id, name and owner and drops exactly that mask from its `masks` |
| Tables.RemoveMemberTwice | backend/template/views.py:342 | removing the same member twice is the same as removing it once |
| Tables.Database.CreateObject | backend/maskgen_api/views.py:48-58 | a new object row under the next free id; the invariant is kept |
| Tables.Database.CreateList | backend/maskgen_api/views.py:44 | a new empty list under the next free id; the invariant is kept when the user has no list of that name |
| Tables.Database.AddToList | backend/maskgen_api/views.py:60 | the id is added to one list's members and nothing else changes |
| Tables.Database.SaveObject | backend/template/views.py:251 | the objects table becomes `Saved`; the invariant is kept |
| Tables.Database.DeleteMask | backend/template/views.py:343 | the mask row goes, and the mask leaves every project |
| TemplateViews.ProjectNames | backend/template/views.py:91 | a name is listed exactly when the user owns a project of that name |
| TemplateViews.ProjectNamesDistinct | backend/template/views.py:91-95 | since project names are unique per user, no name is listed twice |
| TemplateViews.ListProjects | backend/template/views.py:83-96 | status 400 exactly when the `user-id` header is missing or empty; otherwise 200 with the user's project names |
| TemplateViews.Highest | backend/template/views.py:358-362 | `order_by("-version").first()` is a row of the highest version, and is absent only for no rows |
| TemplateViews.Latest | backend/template/views.py:377-381 | the newest config of an instrument, absent exactly when the instrument has none |
| TemplateViews.NextVersion | backend/template/views.py:382-385 | above every version of the instrument; 1 for a new instrument; otherwise one more than an existing version |
| TemplateViews.UploadedConfigFacts | backend/template/views.py:376-393 | the upload fails exactly when a key is missing or `instrument`, `filters` or `dispersers` is null, a null giving the `NOT NULL` IntegrityError of its column; otherwise it stores the three, puts every other field into `aux`, and takes version 1 for a new instrument and otherwise one more than the greatest version of it |
| TemplateViews.NullInstrumentRefused | backend/template/views.py:387-393 | with every key present, the upload fails with the `NOT NULL` IntegrityError of `instrument` exactly when `Column` stores the instrument as SQL NULL |
| TemplateViews.UploadKeepsUnique | backend/maskgen_api/models.py:50-55 | the new version keeps `(instrument, version)` unique |
| TemplateViews.InstrumentUpload | backend/template/views.py:374-397 | the method appends exactly the uploaded config and replies 201 with `instrument vN`, or raises the `KeyError` or `IntegrityError` of `UploadedConfig` and changes nothing |
| TemplateViews.RetrieveLatest | backend/template/views.py:354-371 | with no version the reply is a config of the highest version of that instrument; with none at all the view fails |
| TemplateViews.RetrieveExact | backend/template/views.py:354-356 | with a version the reply is exactly that config |
| TemplateViews.RetrieveUnknownVersion | backend/template/views.py:356 | a version never uploaded is a 404 |
| TemplateViews.UploadThenRetrieve | backend/template/views.py:354-393 | right after an upload, retrieving without a version returns the uploaded config |
| TemplateViews.ListUploadedFacts | backend/template/views.py:142-150 | 400 exactly for an existing `(list_name, user_id)`, which creates nothing; a new list keeps the pair unique |
| TemplateViews.ObjectUpload | backend/template/views.py:130-181 | the duplicate check, then the new list; the loop over the file's bytes succeeds only for an empty file |
| TemplateViews.EditedFacts | backend/template/views.py:240-251 | after a successful edit, id, name and owner are kept; only the fields present among `type`, `ra`, `dec` and `priority` change, to their converted values; leftover keys override their `aux` entries and the other entries stay |
| TemplateViews.EditRefusesNullType | backend/template/views.py:240-251 | a null `type` makes the edit fail, with the `NOT NULL` IntegrityError of `save` once the conversions and the `aux` update have passed |
| TemplateViews.NullTypeRefused | backend/template/views.py:240-251 | a type that `Column` stores as SQL NULL fails the edit; any other type never gives the `NOT NULL` IntegrityError of `type` |
| TemplateViews.AssignColumns | backend/template/views.py:240-247 | the pops and assignments of `type`, `ra`, `dec` and `priority` give what `Converted` gives |
| TemplateViews.ApplyEdits | backend/template/views.py:240-251 | the assignments, the `aux` update and the check of `save` give what `Edited` gives |
| TemplateViews.EditObjTouchesOne | backend/template/views.py:232-255 | an edit changes only the rows of the one object named and keeps every id; anything but a 200 changes nothing |
| TemplateViews.EditObjUnknownList | backend/template/views.py:237 | a list that is not the caller's gives 404 and changes nothing |
| TemplateViews.EditObj | backend/template/views.py:232-255 | the method leaves the objects table and reply of `EditObjSpec` and keeps the invariant |
| TemplateViews.DeleteMaskNeedsParameters | backend/template/views.py:322-326 | 400 exactly when a parameter is missing or empty, before any lookup, and nothing changes |
| TemplateViews.DeleteMaskAbsent | backend/template/views.py:330-336 | a mask absent from the project gives 404 and nothing changes |
| TemplateViews.DeleteMaskRemoves | backend/template/views.py:328-348 | a 200 removes one mask of the named project from the masks table and from every project, and keeps every other row |
| TemplateViews.Unlink | backend/template/views.py:342 | `project.masks.remove(mask)` takes the mask out of that project only |
| TemplateViews.DeleteMask | backend/template/views.py:317-348 | the method leaves the tables and reply of `DeleteMaskSpec` and keeps the invariant |
| MaskgenViews.RecordDict | backend/maskgen_api/obs_file_formatting.py:65-74 | a parsed line has the five keys, plus `a_len` and `b_len` exactly when lengths were matched |
| MaskgenViews.RecordRows | backend/maskgen_api/views.py:27-28 | one row per parsed object |
| MaskgenViews.DecodedRowsFacts | backend/maskgen_api/views.py:26-31 | a `.obj` file decodes exactly when the line parser succeeds, into one row per parsed object; any other file decodes exactly when it is JSON |
| MaskgenViews.RecordRowDecodes | backend/maskgen_api/views.py:47-57 | a row of a parsed `.obj` line always converts: name, type, coordinates, the priority truncated toward zero, and the lengths left for `aux` |
| MaskgenViews.LoadRowFacts | backend/maskgen_api/views.py:47-60 | one row keeps the loop invariant, never rewrites an existing object, and answers one id unless the loop stops |
| MaskgenViews.LoadRowsFacts | backend/maskgen_api/views.py:47-60 | the whole loop keeps the loop invariant and existing objects, and a loop run to the end answers one id per row |
| MaskgenViews.LoadRowAnswers | backend/maskgen_api/views.py:48-59 | a row that does not stop the loop has a non-null name and answers an object of the user with that name |
| MaskgenViews.LoadRowNullColumns | backend/maskgen_api/views.py:48-58 | a null name stops the loop with the `NOT NULL` IntegrityError; a null type stops it so exactly when no object of the user has the name |
| MaskgenViews.NullNameRefused | backend/maskgen_api/views.py:48-58 | a row whose name `Column` stores as SQL NULL stops the loop with the `NOT NULL` IntegrityError of `name` and nothing else changes; any other name never gives that error |
| MaskgenViews.LoadRowsAnswers | backend/maskgen_api/views.py:47-60 | the `k`-th id answered is an object of the user named by the `k`-th row |
| MaskgenViews.LoadRowsStops | backend/maskgen_api/views.py:47-60 | after the first exception the remaining rows change nothing |
| MaskgenViews.UploadRefusals | backend/maskgen_api/views.py:26-42 | a file that does not decode, or a list name the user already has, leaves every table as it was |
| MaskgenViews.UploadSucceedsTables | backend/maskgen_api/views.py:44-61 | a 201 keeps the existing objects as they were, keeps ids unique and fresh, and appends one list of the user's whose members are all objects of the user, with no duplicates |
| MaskgenViews.UploadSucceedsReply | backend/maskgen_api/views.py:59-61 | `created` has one id per row, and its ids are exactly the new list's members |
| MaskgenViews.UploadSucceedsOrder | backend/maskgen_api/views.py:47-61 | `created` has one id per row, and the `k`-th is the user's object named by the `k`-th row |
| MaskgenViews.LoadInto | backend/maskgen_api/views.py:48-60 | one pass of the loop on the database: get-or-create, then the id is recorded and added to the list |
| MaskgenViews.LoadAll | backend/maskgen_api/views.py:47-60 | the loop on the database leaves what `LoadRows` gives |
| MaskgenViews.FillList | backend/maskgen_api/views.py:44-61 | the list is created, then the loop runs into it |
| MaskgenViews.StoreRows | backend/maskgen_api/views.py:36-61 | the duplicate check, then `FillList` |
| MaskgenViews.ObjectUpload | backend/maskgen_api/views.py:22-61 | the view leaves the tables and reply of `Uploaded` and keeps the invariant |
| MaskgenViews.ViewListFacts | backend/maskgen_api/views.py:65-81 | 404 exactly when no list has the name; otherwise 200 with one entry per list of that name, in table order, each the serialized list, whose objects include the serializer entry of every member object |
| MaskgenViews.ListObjectsExact | backend/maskgen_api/views.py:75-76 | a serialized list holds the entries of exactly the objects whose ids it has |

## Left out

- File and network I/O are left out: reading the uploaded file, UTF-8 decoding, file and directory creation in `generate_obj_file`, `fetch` and its headers. Files in the model are their text, and a fetch is its settled `Response`.
- Logging is left out, because it changes no state and no reply: the `console.warn` and `console.error` calls at `frontend/src/AladinSlits.tsx:109`, `120` and `131`, and the `print` calls at `backend/template/views.py:31`, `106`, `108` and `375`.
- The database's column limits are left out. The `IntegerField` priority (`backend/maskgen_api/models.py:95`) and versions are unbounded here: PostgreSQL stores 32 bits and SQLite fails beyond 64 bits with an `OverflowError`. The `CharField` lengths are not enforced either: 20 or 100 characters at `backend/maskgen_api/models.py:41`, `59-60`, `90-91` and `104-105`, and 10 for the object type at `92`. The text of `Requests.NotNullFailed` is SQLite's wording of the IntegrityError; other databases word it differently.
- Floating point: numbers are `real`. A JavaScript NaN is `None`, which every operation propagates. Rounding is not modelled.
- JavaScript `Number()` accepts only blank text and plain signed decimals here. Exponents, hexadecimal and `Infinity` are treated as NaN.
- Python `float()` and `int()` of strings accept only plain decimals and integers, after stripping. Exponents, `inf`, `nan` and underscores are treated as errors.
- Python's `str` of a float, `str` of a non-string request value, `json.dumps` and `json.loads` are function parameters (`show`, `str`, `dumps`, `json`). The round trip assumes `show` prints plain decimals that `float()` reads back.
- The cosine and sine of a slit angle are the parameter `rotationOf`. The corner lemmas take them as two reals.
- The regular expressions' `\d` and `\S` are ASCII digits and Python's whitespace set. Unicode digits beyond ASCII are not modelled.
- The sky viewer library is not modelled: `window.A`, `aladin`, `graphicOverlay`, `polygon` and `label`. A viewer is its target text and its append-only overlay. Whether the library is loaded is a parameter.
- Request bodies are decoded JSON dictionaries. Django `QueryDict` form bodies, whose values are lists, are not modelled.
- An absent `list_name` or `user_id` (Python `None`) in an upload is not modelled. Both are strings.
- Ties in `order_by("-version")` between rows of the same version are broken by table order. The database would give an unspecified order.
- Many-to-many relations are sequences in insertion order. `view_list` lists a list's objects in table order.
- The template service's object upload loops over raw bytes. The model keeps only the outcome: an empty file succeeds, any other raises.
- `to_deg`, `generate_obs_file`, `gsda` in `backend/maskgen_api/validator.py`, mask generation and preview, subprocess, Docker and timer code are left out. They wrap astropy, format floats, or run external programs.
- The legacy copies under `mask/maskgen_api/` and `backend/mask/maskgen_api/views.py` are left out, as are the module-level example scripts at the end of the two `backend/mask/mask/` readers.
- UI, routing, styling, serializers, URL files, the Celery task and the test-data seeding are left out. The model constraints appear only as the `Database.Valid` invariant.
- ObjFormat.ObjLine: the `aux` suffixes of the writer test `hasattr` on a decoded JSON dictionary, which has none of those attributes, so they never add anything. The writer's `a_len=` spelling also differs from the parser's `alen=`, so no round trip is claimed for lengths.
- ObjFormat.WriteThenRead: holds only for writable objects. A writable object has the type `GUIDE`, `ALIGN` or `TARGET`, a name without spaces, coordinates printed as plain decimals (a non-negative right ascension), and an exactly representable priority. An object of any other type is written without a marker (`KindPrefix` is empty), so reading the file back loses it.
- MaskgenViews.RowOf: a row that is not a JSON object stops the loop with a `TypeError`. The exact message and exception of Python's attribute lookup on a list or string are not modelled.
- MaskgenViews.ListFilled: decoded data that `for row in data` cannot iterate as rows raises a `TypeError` after the list is created. Python's own message is not modelled.
- Requests.ToInt: integer width is unbounded, as in Python. `int()` of a string with a decimal point is an error, as in Python.
- Tables.Database: one id counter serves every table. The database numbers each table on its own, so ids are fresh and unique in both, but the id values, and so the ids in an upload's `created` reply, are not those the database would assign.
- SlitOverlay.SlitsView.FetchSettled: the response to a 404 sets the error twice in the source. Both settings are one state change here.
