/**
 * The mask service's own copy of the `.obj` line parser, `parse_obj_file`:
 * it reads the file as text instead of decoding uploaded bytes, and
 * otherwise runs the same loop with the same pattern as `obj_to_json`.
 */
module MaskObjToJson {
  import opened Wrappers
  import opened PyText
  import opened ObjFormat

  /** `parse_obj_file` on the file's text: the records of the accepted lines, in order, or the first bad number. */
  method ParseObjFile(text: string) returns (r: Result<seq<ObjRecord>, string>)
    ensures r == ObjToJsonSpec(text)
    ensures r.Ok? ==> |r.value| <= |SplitLines(text)|
  {
    r := ObjToJson(text);
    ParseLinesBound(SplitLines(text));
  }
}
