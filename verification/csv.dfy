/** Comma-separated lines without quoting, the only kind the program writes: joining
    fields with "," and splitting a line at every "," (what Python's `csv` reader does
    to a line that contains no quote character; it reads an empty line as an empty
    record). */
module Csv {

  predicate NoComma(f: string) {
    forall i :: 0 <= i < |f| ==> f[i] != ','
  }

  predicate NoCommas(fields: seq<string>) {
    forall j :: 0 <= j < |fields| ==> NoComma(fields[j])
  }

  /** `fields[0] + "," + fields[1] + ...`. */
  function Join(fields: seq<string>): string
    requires |fields| >= 1
  {
    if |fields| == 1 then fields[0] else fields[0] + "," + Join(fields[1..])
  }

  /** The fields of a non-empty line, split at every comma; a line with `k` commas has
      `k + 1`. */
  function Fields(s: string): (r: seq<string>)
    ensures |r| >= 1
  {
    if |s| == 0 then [""]
    else if s[0] == ',' then [""] + Fields(s[1..])
    else
      var rest := Fields(s[1..]);
      [[s[0]] + rest[0]] + rest[1..]
  }

  /** The record the reader makes of a line: an empty line is the empty record, which
      `DictReader` skips; any other line is its fields. */
  function Split(s: string): (r: seq<string>)
    ensures r == [] <==> s == ""
  {
    if s == "" then [] else Fields(s)
  }

  lemma {:induction false} FieldsField(f: string, tail: seq<string>, t: string)
    requires NoComma(f)
    requires Fields(t) == [""] + tail
    ensures Fields(f + t) == [f] + tail
  {
    if |f| == 0 {
      assert f + t == t;
    } else {
      FieldsField(f[1..], tail, t);
      assert (f + t)[1..] == f[1..] + t;
      assert [f[0]] + f[1..] == f;
    }
  }

  lemma {:induction false} FieldsJoin(fields: seq<string>)
    requires |fields| >= 1 && NoCommas(fields)
    ensures Fields(Join(fields)) == fields
  {
    if |fields| == 1 {
      FieldsField(fields[0], [], "");
      assert fields[0] + "" == fields[0];
    } else {
      var rest := fields[1..];
      FieldsJoin(rest);
      var t := "," + Join(rest);
      assert Fields(t) == [""] + rest;
      FieldsField(fields[0], rest, t);
      assert fields[0] + "," + Join(rest) == fields[0] + t;
      assert [fields[0]] + rest == fields;
    }
  }

  /** Splitting what `Join` wrote gives the fields back, when no field holds a comma and
      the line is not empty; the one list that joins to an empty line, `[""]`, reads back
      as the empty record. */
  lemma SplitJoin(fields: seq<string>)
    requires |fields| >= 1 && NoCommas(fields)
    ensures fields == [""] ==> Split(Join(fields)) == []
    ensures fields != [""] ==> Split(Join(fields)) == fields
  {
    FieldsJoin(fields);
  }
}
