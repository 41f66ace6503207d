/** The schema code generator: maps a parsed schema definition (a name and
    ordered typed fields) to the source text of a Rust or Python function
    building the matching Arrow schema. Reading the JSON input and writing
    the output file are left to the caller; the model starts from the
    parsed definition and ends at the generated text. */
module Schema {
  import opened Wrappers

  /** `SchemaField`: `nullable` may be absent from the input. */
  datatype SchemaField = SchemaField(name: string, fieldType: string, nullable: Option<bool>)

  datatype SchemaDefinition = SchemaDefinition(name: string, fields: seq<SchemaField>)

  /** The eight type names the generator knows, and what each becomes. */
  const KNOWN_TYPES: seq<string> := ["string", "int32", "int64", "uint32", "uint64", "float32", "float64", "bool"]
  const ARROW_TYPES: seq<string> := ["DataType::Utf8", "DataType::Int32", "DataType::Int64", "DataType::UInt32",
                                     "DataType::UInt64", "DataType::Float32", "DataType::Float64", "DataType::Boolean"]
  const PYARROW_TYPES: seq<string> := ["pa.string()", "pa.int32()", "pa.int64()", "pa.uint32()",
                                       "pa.uint64()", "pa.float32()", "pa.float64()", "pa.bool_()"]

  const ARROW_UNKNOWN_PREFIX: string := "DataType::Utf8 // Unknown: "
  const PYARROW_UNKNOWN_PREFIX: string := "pa.string()  # Unknown: "

  /** Position of `t` among the known type names. */
  function KnownIndex(t: string): (r: Option<nat>)
    ensures r.Some? ==> r.value < |KNOWN_TYPES| && KNOWN_TYPES[r.value] == t
    ensures r.None? <==> t !in KNOWN_TYPES
  {
    if t == "string" then Some(0)
    else if t == "int32" then Some(1)
    else if t == "int64" then Some(2)
    else if t == "uint32" then Some(3)
    else if t == "uint64" then Some(4)
    else if t == "float32" then Some(5)
    else if t == "float64" then Some(6)
    else if t == "bool" then Some(7)
    else None
  }

  /** `map_type_to_arrow`: the fixed Arrow type for a known name, else Utf8
      with the unknown name kept in a trailing comment. */
  function MapTypeToArrow(t: string): (r: string)
    ensures forall i :: 0 <= i < |KNOWN_TYPES| && KNOWN_TYPES[i] == t ==> r == ARROW_TYPES[i]
    ensures t !in KNOWN_TYPES ==> r == ARROW_UNKNOWN_PREFIX + t
  {
    match KnownIndex(t)
    case Some(i) => ARROW_TYPES[i]
    case None => ARROW_UNKNOWN_PREFIX + t
  }

  /** `map_type_to_pyarrow`: the same table for PyArrow. */
  function MapTypeToPyarrow(t: string): (r: string)
    ensures forall i :: 0 <= i < |KNOWN_TYPES| && KNOWN_TYPES[i] == t ==> r == PYARROW_TYPES[i]
    ensures t !in KNOWN_TYPES ==> r == PYARROW_UNKNOWN_PREFIX + t
  {
    match KnownIndex(t)
    case Some(i) => PYARROW_TYPES[i]
    case None => PYARROW_UNKNOWN_PREFIX + t
  }

  /** No information is lost in either mapping: distinct type names give
      distinct type texts, so the input name can always be recovered from
      the generated code. */
  lemma MappingsInjective(a: string, b: string)
    ensures MapTypeToArrow(a) == MapTypeToArrow(b) ==> a == b
    ensures MapTypeToPyarrow(a) == MapTypeToPyarrow(b) ==> a == b
  {
    if MapTypeToArrow(a) == MapTypeToArrow(b) {
      ArrowInjective(a, b);
    }
    if MapTypeToPyarrow(a) == MapTypeToPyarrow(b) {
      PyarrowInjective(a, b);
    }
  }

  lemma ArrowInjective(a: string, b: string)
    requires MapTypeToArrow(a) == MapTypeToArrow(b)
    ensures a == b
  {
    ArrowTextsDistinguish(a);
    ArrowTextsDistinguish(b);
    if a in KNOWN_TYPES && b in KNOWN_TYPES {
      TextsDistinct();
    }
  }

  lemma PyarrowInjective(a: string, b: string)
    requires MapTypeToPyarrow(a) == MapTypeToPyarrow(b)
    ensures a == b
  {
    PyarrowTextsDistinguish(a);
    PyarrowTextsDistinguish(b);
    if a in KNOWN_TYPES && b in KNOWN_TYPES {
      TextsDistinct();
    }
  }

  /** The eight known names and their two renderings are pairwise distinct. */
  lemma TextsDistinct()
    ensures |ARROW_TYPES| == |KNOWN_TYPES| == |PYARROW_TYPES|
    ensures forall i, j :: 0 <= i < j < |ARROW_TYPES| ==> ARROW_TYPES[i] != ARROW_TYPES[j]
    ensures forall i, j :: 0 <= i < j < |PYARROW_TYPES| ==> PYARROW_TYPES[i] != PYARROW_TYPES[j]
  {
  }

  /** Known Arrow texts are shorter than the unknown prefix, so an output
      tells which kind of name produced it, and which name. */
  lemma ArrowTextsDistinguish(t: string)
    ensures t in KNOWN_TYPES <==> |MapTypeToArrow(t)| < |ARROW_UNKNOWN_PREFIX|
    ensures t !in KNOWN_TYPES ==> MapTypeToArrow(t)[|ARROW_UNKNOWN_PREFIX|..] == t
    ensures t in KNOWN_TYPES ==> KNOWN_TYPES[KnownIndex(t).value] == t
                                 && MapTypeToArrow(t) == ARROW_TYPES[KnownIndex(t).value]
  {
    if t !in KNOWN_TYPES {
      assert (ARROW_UNKNOWN_PREFIX + t)[|ARROW_UNKNOWN_PREFIX|..] == t;
    }
  }

  lemma PyarrowTextsDistinguish(t: string)
    ensures t in KNOWN_TYPES <==> |MapTypeToPyarrow(t)| < |PYARROW_UNKNOWN_PREFIX|
    ensures t !in KNOWN_TYPES ==> MapTypeToPyarrow(t)[|PYARROW_UNKNOWN_PREFIX|..] == t
    ensures t in KNOWN_TYPES ==> KNOWN_TYPES[KnownIndex(t).value] == t
                                 && MapTypeToPyarrow(t) == PYARROW_TYPES[KnownIndex(t).value]
  {
    if t !in KNOWN_TYPES {
      assert (PYARROW_UNKNOWN_PREFIX + t)[|PYARROW_UNKNOWN_PREFIX|..] == t;
    }
  }

  /** `char::to_lowercase` on ASCII letters. */
  function LowerChar(c: char): (r: char)
    ensures !('A' <= r <= 'Z')
    ensures 'a' <= c <= 'z' || !('A' <= c <= 'Z') ==> r == c
    ensures 'A' <= c <= 'Z' ==> r as int == c as int + 32
  {
    if 'A' <= c <= 'Z' then (c as int + 32) as char else c
  }

  /** `str::to_lowercase`, character by character. */
  function ToLower(s: string): (r: string)
    ensures |r| == |s|
    ensures forall i :: 0 <= i < |s| ==> r[i] == LowerChar(s[i])
  {
    seq(|s|, i requires 0 <= i < |s| => LowerChar(s[i]))
  }

  /** Lower-casing is idempotent and leaves lower-case names alone. */
  lemma ToLowerIdempotent(s: string)
    ensures ToLower(ToLower(s)) == ToLower(s)
    ensures (forall i :: 0 <= i < |s| ==> !('A' <= s[i] <= 'Z')) ==> ToLower(s) == s
  {
  }

  /** Each line followed by a newline. */
  function JoinLines(lines: seq<string>): (r: string)
    ensures |r| >= |lines|
  {
    if lines == [] then [] else lines[0] + "\n" + JoinLines(lines[1..])
  }

  /** Index of the first newline in `s`, if any. */
  function FirstNewline(s: string): (r: Option<nat>)
    ensures r.Some? ==> r.value < |s| && s[r.value] == '\n' && '\n' !in s[..r.value]
    ensures r.None? <==> '\n' !in s
  {
    if s == [] then None
    else if s[0] == '\n' then Some(0)
    else match FirstNewline(s[1..])
      case Some(k) =>
        assert s[..k + 1] == [s[0]] + s[1..][..k];
        Some(k + 1)
      case None =>
        assert s == [s[0]] + s[1..];
        None
  }

  /** The lines of a text: the pieces between newlines, a final piece
      without newline included. */
  function SplitLines(s: string): seq<string>
    decreases |s|
  {
    match FirstNewline(s)
    case None => if s == [] then [] else [s]
    case Some(k) => [s[..k]] + SplitLines(s[k + 1..])
  }

  predicate NoNewlines(lines: seq<string>)
  {
    forall i :: 0 <= i < |lines| ==> '\n' !in lines[i]
  }

  /** Splitting undoes joining when no line holds a newline. */
  lemma {:induction false} SplitJoinLines(lines: seq<string>)
    requires NoNewlines(lines)
    ensures SplitLines(JoinLines(lines)) == lines
  {
    if lines != [] {
      assert JoinLines(lines) == lines[0] + ("\n" + JoinLines(lines[1..]));
      assert '\n' !in lines[0];
      SplitFirstLine(lines[0], JoinLines(lines[1..]));
      assert NoNewlines(lines[1..]) by {
        forall i | 0 <= i < |lines[1..]| ensures '\n' !in lines[1..][i] {
          assert lines[1..][i] == lines[i + 1];
        }
      }
      SplitJoinLines(lines[1..]);
    }
  }

  /** A newline-free first line splits off whole. */
  lemma SplitFirstLine(l: string, rest: string)
    requires '\n' !in l
    ensures SplitLines(l + ("\n" + rest)) == [l] + SplitLines(rest)
  {
    var s := l + ("\n" + rest);
    FirstNewlineAfter(l, rest);
    assert s[..|l|] == l;
    assert s[|l| + 1..] == rest;
  }

  lemma {:induction false} FirstNewlineAfter(a: string, b: string)
    requires '\n' !in a
    ensures FirstNewline(a + ("\n" + b)) == Some(|a|)
  {
    var s := a + ("\n" + b);
    if a != [] {
      assert s[0] == a[0];
      assert s[1..] == a[1..] + ("\n" + b);
      FirstNewlineAfter(a[1..], b);
    }
  }

  function BoolText(b: bool): string
  {
    if b then "true" else "false"
  }

  /** The fixed pieces of the Rust output. The braces of the import line
      are doubled in the output, because it is appended verbatim rather
      than through a format string. */
  const RUST_COMMENT: string := "// Auto-generated schema for "
  const RUST_IMPORT_LINE: string := "use arrow::datatypes::" + "{{DataType, Field, Schema}};"
  const RUST_FN_OPEN: string := "pub fn "
  const RUST_FN_CLOSE: string := "_schema() -> Schema {"
  const RUST_VEC_OPEN: string := "    Schema::new(vec!["
  const RUST_FIELD_OPEN: string := "        Field::new(\""
  const VEC_CLOSE: string := "    ])"
  const RUST_CLOSE: string := "}"

  /** The fixed pieces of the Python output. */
  const PYTHON_COMMENT: string := "# Auto-generated schema for "
  const PYTHON_IMPORT_LINE: string := "import pyarrow as pa"
  const PYTHON_DEF_OPEN: string := "def "
  const PYTHON_DEF_CLOSE: string := "_schema():"
  const PYTHON_LIST_OPEN: string := "    return pa.schema(["
  const PYTHON_FIELD_OPEN: string := "        pa.field('"

  /** One `Field::new` line; an absent `nullable` is written as `false`. */
  function RustFieldLine(f: SchemaField): string
  {
    RUST_FIELD_OPEN + f.name + "\", " + MapTypeToArrow(f.fieldType) + ", "
      + BoolText(if f.nullable.Some? then f.nullable.value else false) + "),"
  }

  function RustHeader(name: string): seq<string>
  {
    [RUST_COMMENT + name, RUST_IMPORT_LINE, "", RUST_FN_OPEN + ToLower(name) + RUST_FN_CLOSE, RUST_VEC_OPEN]
  }

  function RustFieldLines(fields: seq<SchemaField>): (r: seq<string>)
    ensures |r| == |fields|
    ensures forall i :: 0 <= i < |fields| ==> r[i] == RustFieldLine(fields[i])
  {
    seq(|fields|, i requires 0 <= i < |fields| => RustFieldLine(fields[i]))
  }

  /** The lines `generate_rust_schema` writes, each ended by a newline. */
  function RustLines(schema: SchemaDefinition): seq<string>
  {
    RustHeader(schema.name) + RustFieldLines(schema.fields) + [VEC_CLOSE, RUST_CLOSE]
  }

  /** `generate_rust_schema`. */
  function GenerateRust(schema: SchemaDefinition): string
  {
    JoinLines(RustLines(schema))
  }

  function PythonFieldLine(f: SchemaField): string
  {
    PYTHON_FIELD_OPEN + f.name + "', " + MapTypeToPyarrow(f.fieldType) + "),"
  }

  function PythonHeader(name: string): seq<string>
  {
    [PYTHON_COMMENT + name, PYTHON_IMPORT_LINE, "", PYTHON_DEF_OPEN + ToLower(name) + PYTHON_DEF_CLOSE,
     PYTHON_LIST_OPEN]
  }

  function PythonFieldLines(fields: seq<SchemaField>): (r: seq<string>)
    ensures |r| == |fields|
    ensures forall i :: 0 <= i < |fields| ==> r[i] == PythonFieldLine(fields[i])
  {
    seq(|fields|, i requires 0 <= i < |fields| => PythonFieldLine(fields[i]))
  }

  /** The lines `generate_python_schema` writes, each ended by a newline. */
  function PythonLines(schema: SchemaDefinition): seq<string>
  {
    PythonHeader(schema.name) + PythonFieldLines(schema.fields) + [VEC_CLOSE]
  }

  /** `generate_python_schema`. */
  function GeneratePython(schema: SchemaDefinition): string
  {
    JoinLines(PythonLines(schema))
  }

  /** Names and type names free of newlines, as any identifier is. */
  predicate SingleLineNames(schema: SchemaDefinition)
  {
    && '\n' !in schema.name
    && forall i :: 0 <= i < |schema.fields| ==>
         '\n' !in schema.fields[i].name && '\n' !in schema.fields[i].fieldType
  }

  lemma NoNewlineConcat(a: string, b: string)
    requires '\n' !in a && '\n' !in b
    ensures '\n' !in a + b
  {
    forall k | 0 <= k < |a + b| ensures (a + b)[k] != '\n' {
      if k < |a| {
        assert (a + b)[k] == a[k];
      } else {
        assert (a + b)[k] == b[k - |a|];
      }
    }
  }

  lemma NoNewlineToLower(s: string)
    requires '\n' !in s
    ensures '\n' !in ToLower(s)
  {
    forall k | 0 <= k < |s| ensures ToLower(s)[k] != '\n' {
      assert s[k] in s;
    }
  }

  lemma NoNewlineArrow(t: string)
    requires '\n' !in t
    ensures '\n' !in MapTypeToArrow(t) && '\n' !in MapTypeToPyarrow(t)
  {
    if t !in KNOWN_TYPES {
      NoNewlineConcat(ARROW_UNKNOWN_PREFIX, t);
      NoNewlineConcat(PYARROW_UNKNOWN_PREFIX, t);
    } else {
      var i := KnownIndex(t).value;
      assert MapTypeToArrow(t) == ARROW_TYPES[i] && MapTypeToPyarrow(t) == PYARROW_TYPES[i];
      KnownTextsSingle(i);
    }
  }

  /** The known type texts hold no newline. */
  lemma KnownTextsSingle(i: nat)
    requires i < |KNOWN_TYPES|
    ensures '\n' !in ARROW_TYPES[i] && '\n' !in PYARROW_TYPES[i]
  {
  }

  /** A line made of a fixed prefix, a name and a fixed suffix. */
  lemma NoNewlineWrap(a: string, b: string, c: string)
    requires '\n' !in a && '\n' !in b && '\n' !in c
    ensures '\n' !in a + b + c
  {
    NoNewlineConcat(a, b);
    NoNewlineConcat(a + b, c);
  }

  lemma RustFieldLineSingle(f: SchemaField)
    requires '\n' !in f.name && '\n' !in f.fieldType
    ensures '\n' !in RustFieldLine(f)
  {
    NoNewlineArrow(f.fieldType);
    var b := BoolText(if f.nullable.Some? then f.nullable.value else false);
    NoNewlineWrap(RUST_FIELD_OPEN, f.name, "\", ");
    NoNewlineWrap(RUST_FIELD_OPEN + f.name + "\", ", MapTypeToArrow(f.fieldType), ", ");
    NoNewlineWrap(RUST_FIELD_OPEN + f.name + "\", " + MapTypeToArrow(f.fieldType) + ", ", b, "),");
  }

  lemma PythonFieldLineSingle(f: SchemaField)
    requires '\n' !in f.name && '\n' !in f.fieldType
    ensures '\n' !in PythonFieldLine(f)
  {
    NoNewlineArrow(f.fieldType);
    NoNewlineWrap(PYTHON_FIELD_OPEN, f.name, "', ");
    NoNewlineWrap(PYTHON_FIELD_OPEN + f.name + "', ", MapTypeToPyarrow(f.fieldType), "),");
  }

  lemma ImportLineSingle()
    ensures '\n' !in RUST_IMPORT_LINE
  {
    NoNewlineConcat("use arrow::datatypes::", "{{DataType, Field, Schema}};");
  }

  /** The fixed pieces hold no newline. */
  lemma FixedPiecesSingle()
    ensures '\n' !in RUST_COMMENT && '\n' !in RUST_FN_OPEN && '\n' !in RUST_FN_CLOSE
    ensures '\n' !in RUST_VEC_OPEN && '\n' !in VEC_CLOSE && '\n' !in RUST_CLOSE
    ensures '\n' !in PYTHON_COMMENT && '\n' !in PYTHON_IMPORT_LINE && '\n' !in PYTHON_DEF_OPEN
    ensures '\n' !in PYTHON_DEF_CLOSE && '\n' !in PYTHON_LIST_OPEN
  {
    RustPiecesSingle();
    PythonPiecesSingle();
    ClosingPiecesSingle();
  }

  lemma RustPiecesSingle()
    ensures '\n' !in RUST_COMMENT && '\n' !in RUST_FN_OPEN && '\n' !in RUST_FN_CLOSE
  {
  }

  lemma PythonPiecesSingle()
    ensures '\n' !in PYTHON_COMMENT && '\n' !in PYTHON_IMPORT_LINE && '\n' !in PYTHON_DEF_OPEN
  {
  }

  lemma ClosingPiecesSingle()
    ensures '\n' !in RUST_VEC_OPEN && '\n' !in VEC_CLOSE && '\n' !in RUST_CLOSE
    ensures '\n' !in PYTHON_DEF_CLOSE && '\n' !in PYTHON_LIST_OPEN
  {
  }

  lemma RustHeaderSingle(name: string)
    requires '\n' !in name
    ensures NoNewlines(RustHeader(name))
  {
    var h := RustHeader(name);
    FixedPiecesSingle();
    NoNewlineConcat(RUST_COMMENT, name);
    ImportLineSingle();
    NoNewlineToLower(name);
    NoNewlineWrap(RUST_FN_OPEN, ToLower(name), RUST_FN_CLOSE);
    assert h[0] == RUST_COMMENT + name && h[1] == RUST_IMPORT_LINE && h[2] == "";
    assert h[3] == RUST_FN_OPEN + ToLower(name) + RUST_FN_CLOSE && h[4] == RUST_VEC_OPEN;
  }

  lemma PythonHeaderSingle(name: string)
    requires '\n' !in name
    ensures NoNewlines(PythonHeader(name))
  {
    var h := PythonHeader(name);
    FixedPiecesSingle();
    NoNewlineConcat(PYTHON_COMMENT, name);
    NoNewlineToLower(name);
    NoNewlineWrap(PYTHON_DEF_OPEN, ToLower(name), PYTHON_DEF_CLOSE);
    assert h[0] == PYTHON_COMMENT + name && h[1] == PYTHON_IMPORT_LINE && h[2] == "";
    assert h[3] == PYTHON_DEF_OPEN + ToLower(name) + PYTHON_DEF_CLOSE && h[4] == PYTHON_LIST_OPEN;
  }

  lemma NoNewlinesConcat(a: seq<string>, b: seq<string>)
    requires NoNewlines(a) && NoNewlines(b)
    ensures NoNewlines(a + b)
  {
    forall k | 0 <= k < |a + b| ensures '\n' !in (a + b)[k] {
      if k < |a| {
        assert (a + b)[k] == a[k];
      } else {
        assert (a + b)[k] == b[k - |a|];
      }
    }
  }

  lemma RustLinesSingle(schema: SchemaDefinition)
    requires SingleLineNames(schema)
    ensures NoNewlines(RustLines(schema))
  {
    var fs := RustFieldLines(schema.fields);
    RustHeaderSingle(schema.name);
    forall i | 0 <= i < |fs| ensures '\n' !in fs[i] {
      RustFieldLineSingle(schema.fields[i]);
    }
    NoNewlinesConcat(RustHeader(schema.name), fs);
    FixedPiecesSingle();
    NoNewlinesConcat(RustHeader(schema.name) + fs, [VEC_CLOSE, RUST_CLOSE]);
  }

  lemma PythonLinesSingle(schema: SchemaDefinition)
    requires SingleLineNames(schema)
    ensures NoNewlines(PythonLines(schema))
  {
    var fs := PythonFieldLines(schema.fields);
    PythonHeaderSingle(schema.name);
    forall i | 0 <= i < |fs| ensures '\n' !in fs[i] {
      PythonFieldLineSingle(schema.fields[i]);
    }
    NoNewlinesConcat(PythonHeader(schema.name), fs);
    FixedPiecesSingle();
    NoNewlinesConcat(PythonHeader(schema.name) + fs, [VEC_CLOSE]);
  }

  lemma RustSplits(schema: SchemaDefinition)
    requires SingleLineNames(schema)
    ensures SplitLines(GenerateRust(schema)) == RustLines(schema)
  {
    RustLinesSingle(schema);
    SplitJoinLines(RustLines(schema));
  }

  lemma PythonSplits(schema: SchemaDefinition)
    requires SingleLineNames(schema)
    ensures SplitLines(GeneratePython(schema)) == PythonLines(schema)
  {
    PythonLinesSingle(schema);
    SplitJoinLines(PythonLines(schema));
  }

  /** Positions in a five-line header followed by the field lines and a
      tail. */
  lemma LinesShape(h: seq<string>, fs: seq<string>, tail: seq<string>)
    requires |h| == 5
    ensures |h + fs + tail| == 5 + |fs| + |tail|
    ensures (h + fs + tail)[..5] == h
    ensures forall i :: 0 <= i < |fs| ==> (h + fs + tail)[5 + i] == fs[i]
    ensures forall j :: 0 <= j < |tail| ==> (h + fs + tail)[5 + |fs| + j] == tail[j]
  {
    assert (h + fs + tail)[..5] == h;
  }

  /** The Rust output, read back line by line: a comment naming the schema,
      the verbatim import, a blank line, a function named after the
      lower-cased schema name, the vector opening, then exactly one
      `Field::new` line per field in input order, then the two closing
      lines. */
  lemma RustOutputLines(schema: SchemaDefinition)
    requires SingleLineNames(schema)
    ensures SplitLines(GenerateRust(schema)) == RustLines(schema)
    ensures var lines := RustLines(schema);
            var n := |schema.fields|;
            && |lines| == n + 7
            && lines[..5] == RustHeader(schema.name)
            && (forall i :: 0 <= i < n ==> lines[5 + i] == RustFieldLine(schema.fields[i]))
            && lines[n + 5] == VEC_CLOSE && lines[n + 6] == RUST_CLOSE
  {
    RustSplits(schema);
    LinesShape(RustHeader(schema.name), RustFieldLines(schema.fields), [VEC_CLOSE, RUST_CLOSE]);
  }

  /** A field line ends with the field's nullability, and an absent one is
      written exactly like an explicit `false`. */
  lemma AbsentNullableIsFalse(f: SchemaField)
    ensures RustFieldLine(f.(nullable := None)) == RustFieldLine(f.(nullable := Some(false)))
    ensures RustFieldLine(f.(nullable := Some(true))) != RustFieldLine(f.(nullable := Some(false)))
  {
    var base := RUST_FIELD_OPEN + f.name + "\", " + MapTypeToArrow(f.fieldType) + ", ";
    assert RustFieldLine(f.(nullable := Some(true))) == base + "true" + "),";
    assert RustFieldLine(f.(nullable := Some(false))) == base + "false" + "),";
    assert |base + "true" + "),"| != |base + "false" + "),"|;
  }

  /** The Python output, read back line by line: the header lines, exactly
      one `pa.field` line per field in input order, and the closing line. */
  lemma PythonOutputLines(schema: SchemaDefinition)
    requires SingleLineNames(schema)
    ensures SplitLines(GeneratePython(schema)) == PythonLines(schema)
    ensures var lines := PythonLines(schema);
            var n := |schema.fields|;
            && |lines| == n + 6
            && lines[..5] == PythonHeader(schema.name)
            && (forall i :: 0 <= i < n ==> lines[5 + i] == PythonFieldLine(schema.fields[i]))
            && lines[n + 5] == VEC_CLOSE
  {
    PythonSplits(schema);
    LinesShape(PythonHeader(schema.name), PythonFieldLines(schema.fields), [VEC_CLOSE]);
  }

  /** The Python output ignores `nullable`: two schemas differing only in
      nullability generate the same text. */
  lemma PythonIgnoresNullable(schema: SchemaDefinition, other: SchemaDefinition)
    requires other.name == schema.name && |other.fields| == |schema.fields|
    requires forall i :: 0 <= i < |schema.fields| ==>
               other.fields[i].name == schema.fields[i].name && other.fields[i].fieldType == schema.fields[i].fieldType
    ensures GeneratePython(other) == GeneratePython(schema)
  {
    var a := PythonFieldLines(other.fields);
    var b := PythonFieldLines(schema.fields);
    forall i | 0 <= i < |a| ensures a[i] == b[i] {
      assert PythonFieldLine(other.fields[i]) == PythonFieldLine(schema.fields[i]);
    }
    assert a == b;
  }

  /** `generate`'s language dispatch: Rust or Python text, or an error
      naming the unsupported language and producing no output. */
  function Generate(schema: SchemaDefinition, lang: string): (r: Result<string, string>)
    ensures lang == "rust" ==> r == Ok(GenerateRust(schema))
    ensures lang == "python" ==> r == Ok(GeneratePython(schema))
    ensures r.Err? <==> lang != "rust" && lang != "python"
    ensures r.Err? ==> r.error == "Unsupported language: " + lang
  {
    if lang == "rust" then Ok(GenerateRust(schema))
    else if lang == "python" then Ok(GeneratePython(schema))
    else Err("Unsupported language: " + lang)
  }
}
