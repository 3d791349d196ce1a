/** JSON documents as trees, and the parts of encoding/json that the codecs rely on. */
module Json {
  import opened Results

  /** Objects are unordered; the text syntax, duplicate keys and case-insensitive matching are not modelled. */
  datatype JSON =
    | JNull
    | JBool(b: bool)
    | JInt(n: int)
    | JFraction(text: string)
    | JStr(s: string)
    | JArr(items: seq<JSON>)
    | JObj(fields: map<string, JSON>)

  /** How a pointer field of a Go struct decodes: null and absent both leave it nil. */
  function Field(fields: map<string, JSON>, name: string): Option<JSON> {
    if name in fields && fields[name] != JNull then Some(fields[name]) else None
  }

  /** Fields of a Go struct; null decodes to the zero struct. */
  function StructFields(j: JSON): Option<map<string, JSON>> {
    match j
    case JNull => Some(map[])
    case JObj(fields) => Some(fields)
    case _ => None
  }

  /** The object holds the field with exactly this value. */
  predicate Has(fields: map<string, JSON>, name: string, value: JSON) {
    name in fields && fields[name] == value
  }

  /** The object does not hold the field, or holds null in it. */
  predicate Unset(fields: map<string, JSON>, name: string) {
    name !in fields || fields[name] == JNull
  }

  /** A field with omitempty. */
  function OmitIf(omitted: bool, name: string, value: JSON): map<string, JSON> {
    if omitted then map[] else map[name := value]
  }

  /** A slice encodes when all of its elements do. */
  function EncodeEach<T>(values: seq<T>, encode: T -> Option<JSON>): Option<seq<JSON>> {
    if forall i :: 0 <= i < |values| ==> encode(values[i]).Some? then
      Some(seq(|values|, i requires 0 <= i < |values| => encode(values[i]).value))
    else None
  }

  /** Two element encodings give the same array exactly when they agree on every element. */
  lemma EachEncodingIff<S, T>(xs: seq<S>, ys: seq<T>, encode: S -> Option<JSON>, encode': T -> Option<JSON>,
                              same: seq<bool>)
    requires |xs| == |ys| == |same|
    requires forall i :: 0 <= i < |xs| ==>
               && encode(xs[i]).Some? && encode'(ys[i]).Some?
               && (encode(xs[i]).value == encode'(ys[i]).value <==> same[i])
    ensures EncodeEach(xs, encode).Some? && EncodeEach(ys, encode').Some?
    ensures EncodeEach(xs, encode).value == EncodeEach(ys, encode').value <==> forall i :: 0 <= i < |xs| ==> same[i]
  {
    var a, b := EncodeEach(xs, encode).value, EncodeEach(ys, encode').value;
    assert forall i :: 0 <= i < |xs| ==> (a[i] == b[i] <==> same[i]);
  }

  function EncodeEntries<T>(entries: map<string, T>, encode: T -> Option<JSON>): Option<JSON> {
    if forall name :: name in entries ==> encode(entries[name]).Some? then
      Some(JObj(map name | name in entries :: encode(entries[name]).value))
    else None
  }

  function DecodeEach<T>(items: seq<JSON>, decode: JSON -> Option<T>): Option<seq<T>> {
    if forall i :: 0 <= i < |items| ==> decode(items[i]).Some? then
      Some(seq(|items|, i requires 0 <= i < |items| => decode(items[i]).value))
    else None
  }

  function DecodeEntries<T>(fields: map<string, JSON>, decode: JSON -> Option<T>): Option<map<string, T>> {
    if forall name :: name in fields ==> decode(fields[name]).Some? then
      Some(map name | name in fields :: decode(fields[name]).value)
    else None
  }

  lemma EachRoundTrip<T>(values: seq<T>, encode: T -> Option<JSON>, decode: JSON -> Option<T>)
    requires forall i :: 0 <= i < |values| ==>
               encode(values[i]).Some? && decode(encode(values[i]).value) == Some(values[i])
    ensures EncodeEach(values, encode).Some? && DecodeEach(EncodeEach(values, encode).value, decode) == Some(values)
  {
    var items := EncodeEach(values, encode).value;
    assert forall i :: 0 <= i < |values| ==> items[i] == encode(values[i]).value;
    assert DecodeEach(items, decode).value == values;
  }

  lemma EntriesRoundTrip<T>(entries: map<string, T>, encode: T -> Option<JSON>, decode: JSON -> Option<T>)
    requires forall name :: name in entries ==>
               encode(entries[name]).Some? && decode(encode(entries[name]).value) == Some(entries[name])
    ensures EncodeEntries(entries, encode).Some? && EncodeEntries(entries, encode).value.JObj?
    ensures DecodeEntries(EncodeEntries(entries, encode).value.fields, decode) == Some(entries)
  {
    var fields := EncodeEntries(entries, encode).value.fields;
    assert fields.Keys == entries.Keys;
    var decoded := DecodeEntries(fields, decode).value;
    assert decoded.Keys == entries.Keys;
    assert forall name :: name in entries ==> fields[name] == encode(entries[name]).value;
    assert decoded == entries;
  }

  /** Exactly which objects and arrays decode, entry by entry. */
  lemma EntriesIff<T>(entries: map<string, JSON>, values: map<string, T>, decode: JSON -> Option<T>)
    ensures DecodeEntries(entries, decode) == Some(values) <==>
            entries.Keys == values.Keys && forall key :: key in values ==> decode(entries[key]) == Some(values[key])
  {
    if DecodeEntries(entries, decode).Some? {
      var decoded := DecodeEntries(entries, decode).value;
      assert decoded.Keys == entries.Keys;
      assert forall key :: key in decoded ==> decode(entries[key]) == Some(decoded[key]);
      if entries.Keys == values.Keys && forall key :: key in values ==> decode(entries[key]) == Some(values[key]) {
        assert decoded == values;
      }
    }
  }

  lemma EachIff<T>(items: seq<JSON>, values: seq<T>, decode: JSON -> Option<T>)
    ensures DecodeEach(items, decode) == Some(values) <==>
            |items| == |values| && forall i :: 0 <= i < |items| ==> decode(items[i]) == Some(values[i])
  {
    if DecodeEach(items, decode).Some? {
      var decoded := DecodeEach(items, decode).value;
      assert forall i :: 0 <= i < |items| ==> decode(items[i]) == Some(decoded[i]);
      if |items| == |values| && forall i :: 0 <= i < |items| ==> decode(items[i]) == Some(values[i]) {
        assert decoded == values;
      }
    }
  }

  /** Two entry encodings give the same object exactly when they agree on every entry. */
  lemma EntriesEncodingIff<S, T>(a: map<string, S>, b: map<string, T>, encode: S -> Option<JSON>,
                                 encode': T -> Option<JSON>, same: set<string>)
    requires a.Keys == b.Keys
    requires forall name :: name in a ==>
               && encode(a[name]).Some? && encode'(b[name]).Some?
               && (encode(a[name]).value == encode'(b[name]).value <==> name in same)
    ensures EncodeEntries(a, encode).Some? && EncodeEntries(b, encode').Some?
    ensures EncodeEntries(a, encode).value == EncodeEntries(b, encode').value <==> a.Keys <= same
  {
    var x, y := EncodeEntries(a, encode).value.fields, EncodeEntries(b, encode').value.fields;
    assert x.Keys == y.Keys == a.Keys;
    assert forall name :: name in a ==> (x[name] == y[name] <==> name in same);
  }

  function Strings(values: seq<string>): JSON {
    JArr(seq(|values|, i requires 0 <= i < |values| => JStr(values[i])))
  }

  /** Decoding into a []string; null leaves an element at its zero value. */
  function DecodeStrings(items: seq<JSON>): Option<seq<string>> {
    if items == [] then Some([])
    else
      match (items[0], DecodeStrings(items[1..]))
      case (JStr(s), Some(rest)) => Some([s] + rest)
      case (JNull, Some(rest)) => Some([""] + rest)
      case _ => None
  }

  lemma {:induction false} DecodeOfStrings(values: seq<string>)
    ensures DecodeStrings(Strings(values).items) == Some(values)
  {
    if values != [] {
      assert Strings(values).items[1..] == Strings(values[1..]).items;
      DecodeOfStrings(values[1..]);
      assert values == [values[0]] + values[1..];
    }
  }
}
