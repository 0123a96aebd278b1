/** `errorMessage`: the required-field check every mutating handler runs
    before it touches a board. */
module Validation {
  import opened Wrappers

  /** The request fields the handlers require. */
  datatype Field = BoardField | TextField | ThreadIdField | ReplyIdField | PasswordField

  /** The name under which a field is reported. */
  function FieldName(f: Field): string {
    match f
    case BoardField => "board"
    case TextField => "text"
    case ThreadIdField => "thread_id"
    case ReplyIdField => "reply_id"
    case PasswordField => "delete_password"
  }

  /** The request values a handler validates. A field that is absent and a
      field that is the empty string are both falsy in JavaScript, so both
      count as missing. */
  type Inputs = map<Field, string>

  predicate Present(inputs: Inputs, field: Field) {
    field in inputs && inputs[field] != ""
  }

  /** The fields of `fields` that are missing, in the order of `fields`. */
  function Missing(inputs: Inputs, fields: seq<Field>): (m: seq<Field>)
    ensures |m| <= |fields|
    ensures forall f :: f in m <==> f in fields && !Present(inputs, f)
    decreases |fields|
  {
    if |fields| == 0 then []
    else (if Present(inputs, fields[0]) then [] else [fields[0]]) + Missing(inputs, fields[1..])
  }

  /** `Array.prototype.join(sep)` on strings. */
  function Join(parts: seq<string>, sep: string): (r: string)
    ensures |parts| == 0 ==> r == ""
    ensures |parts| == 1 ==> r == parts[0]
    ensures |parts| >= 2 ==> parts[0] + sep <= r
    decreases |parts|
  {
    if |parts| == 0 then ""
    else if |parts| == 1 then parts[0]
    else parts[0] + sep + Join(parts[1..], sep)
  }

  const InvalidPrefix := "invalid "
  const FieldSeparator := ", "

  function Names(fields: seq<Field>): (names: seq<string>)
    ensures |names| == |fields|
    ensures forall k :: 0 <= k < |fields| ==> names[k] == FieldName(fields[k])
  {
    seq(|fields|, k requires 0 <= k < |fields| => FieldName(fields[k]))
  }

  /** `None` is the source's `false`: every field is present. Otherwise the
      message names every missing field, in declaration order. */
  function ErrorMessage(inputs: Inputs, fields: seq<Field>): (r: Option<string>)
    ensures r.None? <==> forall k :: 0 <= k < |fields| ==> Present(inputs, fields[k])
    ensures r.Some? ==> r.value == InvalidPrefix + Join(Names(Missing(inputs, fields)), FieldSeparator)
    ensures r.Some? ==> |Missing(inputs, fields)| > 0
  {
    var errors := Missing(inputs, fields);
    if |errors| > 0 then
      assert errors[0] in fields && !Present(inputs, errors[0]);
      Some(InvalidPrefix + Join(Names(errors), FieldSeparator))
    else
      None
  }

  /** Missing fields are collected field by field, so the check of a
      concatenated field list is the concatenation of the checks: the order
      of `fields` is kept and nothing is dropped or added. */
  lemma {:induction false} MissingAppend(inputs: Inputs, a: seq<Field>, b: seq<Field>)
    ensures Missing(inputs, a + b) == Missing(inputs, a) + Missing(inputs, b)
    decreases |a|
  {
    if |a| == 0 {
      assert a + b == b;
    } else {
      var head := if Present(inputs, a[0]) then [] else [a[0]];
      assert (a + b)[0] == a[0];
      assert (a + b)[1..] == a[1..] + b;
      assert Missing(inputs, a + b) == head + Missing(inputs, a[1..] + b);
      MissingAppend(inputs, a[1..], b);
      assert head + (Missing(inputs, a[1..]) + Missing(inputs, b))
          == (head + Missing(inputs, a[1..])) + Missing(inputs, b);
    }
  }

  /** When no field is present the message lists all of them, in order. */
  lemma {:induction false} MissingAllAbsent(inputs: Inputs, fields: seq<Field>)
    requires forall k :: 0 <= k < |fields| ==> !Present(inputs, fields[k])
    ensures Missing(inputs, fields) == fields
    decreases |fields|
  {
    if |fields| > 0 {
      MissingAllAbsent(inputs, fields[1..]);
    }
  }

  /** A single missing field is reported alone, with no separator. */
  lemma OneMissing(inputs: Inputs, fields: seq<Field>, k: nat)
    requires k < |fields|
    requires !Present(inputs, fields[k])
    requires forall j :: 0 <= j < |fields| && j != k ==> Present(inputs, fields[j])
    ensures ErrorMessage(inputs, fields) == Some(InvalidPrefix + FieldName(fields[k]))
  {
    MissingIsOne(inputs, fields, k);
    assert Names([fields[k]]) == [FieldName(fields[k])];
  }

  /** The only missing field is the one the check reports. */
  lemma {:induction false} MissingIsOne(inputs: Inputs, fields: seq<Field>, k: nat)
    requires k < |fields|
    requires !Present(inputs, fields[k])
    requires forall j :: 0 <= j < |fields| && j != k ==> Present(inputs, fields[j])
    ensures Missing(inputs, fields) == [fields[k]]
    decreases k
  {
    var rest := fields[1..];
    if k == 0 {
      assert forall j :: 0 <= j < |rest| ==> Present(inputs, rest[j]) by {
        forall j | 0 <= j < |rest| ensures Present(inputs, rest[j]) {
          assert rest[j] == fields[j + 1];
        }
      }
      MissingNonePresent(inputs, rest);
      assert [fields[0]] + [] == [fields[0]];
    } else {
      assert forall j :: 0 <= j < |rest| && j != k - 1 ==> Present(inputs, rest[j]) by {
        forall j | 0 <= j < |rest| && j != k - 1 ensures Present(inputs, rest[j]) {
          assert rest[j] == fields[j + 1];
        }
      }
      MissingIsOne(inputs, rest, k - 1);
      assert [] + [rest[k - 1]] == [fields[k]];
    }
  }

  /** When every field is present nothing is reported. */
  lemma {:induction false} MissingNonePresent(inputs: Inputs, fields: seq<Field>)
    requires forall k :: 0 <= k < |fields| ==> Present(inputs, fields[k])
    ensures Missing(inputs, fields) == []
    decreases |fields|
  {
    if |fields| > 0 {
      MissingNonePresent(inputs, fields[1..]);
    }
  }
}
