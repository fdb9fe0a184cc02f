/**
 * The annotation-file handlers of `utils/schemas_loader.py`: `JSONLoader` (path choice for
 * `load` and `save`), `COCOHandler` (the images, annotations and categories lists of a COCO
 * document) and `YOLOHandler` (one annotation line per object).
 *
 * File contents enter as parameters: `json.load` is the map handed to `Load`, `readlines` the
 * lines handed to `YOLOHandler.Load`. Python's `int`, `float` and `f"{v:.6f}"` are oracles.
 */
module Schemas {
  import opened Wrappers
  import Text

  const NoPath := "File path is not specified."
  const NotLoaded := "Data is not loaded."
  /** The exceptions of `add_*` on unloaded data and of `parse_line`, by kind. */
  const TypeError := "TypeError"
  const IndexError := "IndexError"
  const ValueError := "ValueError"

  /** Python truthiness of an optional path: neither None nor empty. */
  predicate Truthy(p: Option<string>)
  {
    p.Some? && p.value != ""
  }

  /**
   * `path = file_path if file_path else self.file_path`, raising when that is not set: an
   * explicit path wins, the stored one is the fallback.
   */
  function SavePath(explicit: Option<string>, stored: Option<string>): (r: Result<string, string>)
    ensures r.Err? <==> !Truthy(explicit) && !Truthy(stored)
    ensures r.Err? ==> r.error == NoPath
    ensures r.Ok? ==> r.value != ""
    ensures Truthy(explicit) ==> r == Ok(explicit.value)
    ensures !Truthy(explicit) && Truthy(stored) ==> r == Ok(stored.value)
  {
    var path := if Truthy(explicit) then explicit else stored;
    if !Truthy(path) then Err(NoPath) else Ok(path.value)
  }

  /** A JSON document whose top-level values of interest are lists. */
  type Document<J> = map<string, seq<J>>

  /** `data.get(key, [])`. */
  function Lookup<J>(m: Document<J>, key: string): seq<J>
  {
    if key in m then m[key] else []
  }

  /** A COCO getter: raises on unloaded data, else the list under `key`, `[]` when absent. */
  function Entries<J>(data: Option<Document<J>>, key: string): (r: Result<seq<J>, string>)
    ensures r.Err? <==> data.None?
    ensures r.Err? ==> r.error == NotLoaded
    ensures data.Some? && key !in data.value ==> r == Ok([])
  {
    match data
    case None => Err(NotLoaded)
    case Some(m) => Ok(Lookup(m, key))
  }

  /** A COCO adder on loaded data: the list under `key` (created if missing) gains `x` at its end. */
  function Appended<J>(m: Document<J>, key: string, x: J): Document<J>
  {
    m[key := Lookup(m, key) + [x]]
  }

  /** Appending changes exactly the list under `key`, by one element at the end. */
  lemma AppendedFacts<J>(m: Document<J>, key: string, x: J, other: string)
    ensures key in Appended(m, key, x)
    ensures Lookup(Appended(m, key, x), key) == Lookup(m, key) + [x]
    ensures other != key ==> (other in Appended(m, key, x) <==> other in m)
    ensures other != key ==> Lookup(Appended(m, key, x), other) == Lookup(m, other)
  {
  }

  /** After an add the getter for that key reports one element more, at the end. */
  lemma GetAfterAdd<J>(m: Document<J>, key: string, x: J)
    ensures Entries(Some(Appended(m, key, x)), key) == Ok(Lookup(m, key) + [x])
    ensures Entries(Some(Appended(m, key, x)), key).Ok? && |Entries(Some(Appended(m, key, x)), key).value| == |Lookup(m, key)| + 1
  {
  }

  /** `JSONLoader`: an optional file path and the loaded document. */
  class JSONLoader<J> {
    var filePath: Option<string>
    var data: Option<Document<J>>

    constructor(filePath: Option<string>)
      ensures this.filePath == filePath && data == None
    {
      this.filePath := filePath;
      data := None;
    }

    /** `load`: raises without a path, else keeps and returns what `json.load` read. */
    method Load(contents: Document<J>) returns (r: Result<Document<J>, string>)
      modifies this`data
      ensures !Truthy(filePath) ==> r == Err(NoPath) && data == old(data)
      ensures Truthy(filePath) ==> r == Ok(contents) && data == Some(contents)
    {
      if !Truthy(filePath) {
        return Err(NoPath);
      }
      data := Some(contents);
      r := Ok(data.value);
    }

    /** `save`: the path written to, or the error raised. */
    method Save(document: Document<J>, explicit: Option<string>) returns (r: Result<string, string>)
      ensures r == SavePath(explicit, filePath)
    {
      var path := if Truthy(explicit) then explicit else filePath;
      if !Truthy(path) {
        return Err(NoPath);
      }
      r := Ok(path.value);
    }
  }

  const Images := "images"
  const Annotations := "annotations"
  const Categories := "categories"

  /** `COCOHandler`, a `JSONLoader` with accessors for the three COCO lists. */
  class COCOHandler<J> {
    const loader: JSONLoader<J>

    constructor(filePath: Option<string>)
      ensures fresh(loader) && loader.filePath == filePath && loader.data == None
    {
      loader := new JSONLoader(filePath);
    }

    function GetImages(): Result<seq<J>, string>
      reads loader
    {
      Entries(loader.data, Images)
    }

    function GetAnnotations(): Result<seq<J>, string>
      reads loader
    {
      Entries(loader.data, Annotations)
    }

    function GetCategories(): Result<seq<J>, string>
      reads loader
    {
      Entries(loader.data, Categories)
    }

    /** The shared body of the adders; `raised` is the TypeError of adding to unloaded data. */
    method Add(key: string, x: J) returns (raised: bool)
      modifies loader`data
      ensures raised <==> old(loader.data).None?
      ensures raised ==> loader.data == old(loader.data)
      ensures !raised ==> loader.data == Some(Appended(old(loader.data).value, key, x))
    {
      if loader.data.None? {
        return true;
      }
      ghost var m0 := loader.data.value;
      var m := loader.data.value;
      if key !in m {
        m := m[key := []];
      }
      assert m[key] == Lookup(m0, key);
      m := m[key := m[key] + [x]];
      assert m == Appended(m0, key, x);
      loader.data := Some(m);
      raised := false;
    }

    method AddImage(image: J) returns (raised: bool)
      modifies loader`data
      ensures raised <==> old(loader.data).None?
      ensures raised ==> loader.data == old(loader.data)
      ensures !raised ==> loader.data == Some(Appended(old(loader.data).value, Images, image))
    {
      raised := Add(Images, image);
    }

    method AddAnnotation(annotation: J) returns (raised: bool)
      modifies loader`data
      ensures raised <==> old(loader.data).None?
      ensures raised ==> loader.data == old(loader.data)
      ensures !raised ==> loader.data == Some(Appended(old(loader.data).value, Annotations, annotation))
    {
      raised := Add(Annotations, annotation);
    }

    method AddCategory(category: J) returns (raised: bool)
      modifies loader`data
      ensures raised <==> old(loader.data).None?
      ensures raised ==> loader.data == old(loader.data)
      ensures !raised ==> loader.data == Some(Appended(old(loader.data).value, Categories, category))
    {
      raised := Add(Categories, category);
    }
  }

  // ---------------------------------------------------------------------------
  // YOLO lines
  // ---------------------------------------------------------------------------

  /** `parse_line`'s dictionary: `{"class_id": ..., "bbox": [...]}`. */
  datatype Annotation = Annotation(classId: int, bbox: seq<real>)

  /** `f"{class_id} " + " ".join(f"{v:.6f}" for v in bbox)`, with the float format as `fmt`. */
  function FormatLine(classId: int, bbox: seq<real>, fmt: real -> string): string
  {
    Text.IntToString(classId) + " " + Text.Join(seq(|bbox|, i requires 0 <= i < |bbox| => fmt(bbox[i])), ' ')
  }

  /** `[float(v) for v in parts]`, raising at the first value `float` rejects. */
  function ParseFloats(parts: seq<string>, toFloat: string -> Option<real>): (r: Result<seq<real>, string>)
    ensures r.Ok? ==> |r.value| == |parts| && forall i :: 0 <= i < |parts| ==> toFloat(parts[i]) == Some(r.value[i])
    ensures r.Err? <==> exists i :: 0 <= i < |parts| && toFloat(parts[i]).None?
  {
    if parts == [] then Ok([])
    else
      var rest := ParseFloats(parts[1..], toFloat);
      assert forall i :: 0 < i < |parts| ==> parts[i] == parts[1..][i - 1];
      match toFloat(parts[0])
      case None => Err(ValueError)
      case Some(v) =>
        match rest
        case Err(e) => Err(e)
        case Ok(vs) => Ok([v] + vs)
  }

  /** `parse_line`: `line.split()`, `int` of the first word, `float` of the rest. */
  function ParseLine(line: string, toInt: string -> Option<int>, toFloat: string -> Option<real>): Result<Annotation, string>
  {
    var parts := Text.Words(line);
    if parts == [] then Err(IndexError)
    else
      match toInt(parts[0])
      case None => Err(ValueError)
      case Some(c) =>
        match ParseFloats(parts[1..], toFloat)
        case Err(e) => Err(e)
        case Ok(vs) => Ok(Annotation(c, vs))
  }

  /** `[self.parse_line(line) for line in self.data]`: one annotation per line, or the first error. */
  function ParseAll(lines: seq<string>, toInt: string -> Option<int>, toFloat: string -> Option<real>): (r: Result<seq<Annotation>, string>)
    ensures r.Ok? ==> |r.value| == |lines| && forall i :: 0 <= i < |lines| ==> ParseLine(lines[i], toInt, toFloat) == Ok(r.value[i])
    ensures r.Err? <==> exists i :: 0 <= i < |lines| && ParseLine(lines[i], toInt, toFloat).Err?
  {
    if lines == [] then Ok([])
    else
      var rest := ParseAll(lines[1..], toInt, toFloat);
      assert forall i :: 0 < i < |lines| ==> lines[i] == lines[1..][i - 1];
      match ParseLine(lines[0], toInt, toFloat)
      case Err(e) => Err(e)
      case Ok(a) =>
        match rest
        case Err(e) => Err(e)
        case Ok(as_) => Ok([a] + as_)
  }

  /** `str(n)` has no whitespace. */
  lemma IntStringNoSpace(n: int)
    ensures Text.IntToString(n) != [] && Text.NoSpace(Text.IntToString(n))
  {
    var s := Text.IntToString(n);
    if n < 0 {
      assert forall i :: 0 < i < |s| ==> s[i] == s[1..][i - 1];
    }
  }

  /** The words of a formatted line: the class id, then one word per coordinate. */
  lemma FormatLineWords(classId: int, bbox: seq<real>, fmt: real -> string)
    requires forall v :: fmt(v) != [] && Text.NoSpace(fmt(v))
    ensures Text.Words(FormatLine(classId, bbox, fmt))
      == [Text.IntToString(classId)] + seq(|bbox|, i requires 0 <= i < |bbox| => fmt(bbox[i]))
  {
    var id := Text.IntToString(classId);
    var fs := seq(|bbox|, i requires 0 <= i < |bbox| => fmt(bbox[i]));
    IntStringNoSpace(classId);
    if fs == [] {
      assert FormatLine(classId, bbox, fmt) == id + [' '];
      Text.LeadingWordWhole(id, [' ']);
      assert (id + [' '])[|id|..] == [' '];
      assert Text.Words([' ']) == Text.Words([]);
    } else {
      var words := [id] + fs;
      assert words[1..] == fs;
      forall i | 0 <= i < |words| ensures words[i] != [] && Text.NoSpace(words[i]) {
        if i > 0 {
          var v := bbox[i - 1];
          assert words[i] == fmt(v);
          assert fmt(v) != [] && Text.NoSpace(fmt(v));
        }
      }
      assert Text.Join(words, ' ') == FormatLine(classId, bbox, fmt);
      Text.WordsOfJoin(words);
    }
  }

  /**
   * A line written by `add_annotation` reads back through `parse_line` with its class id and
   * one coordinate per value, as long as `int` reads `str` back and `float` accepts what the
   * format writes.
   */
  lemma ParseFormatted(classId: int, bbox: seq<real>, fmt: real -> string,
                       toInt: string -> Option<int>, toFloat: string -> Option<real>)
    requires forall v :: fmt(v) != [] && Text.NoSpace(fmt(v)) && toFloat(fmt(v)).Some?
    requires toInt(Text.IntToString(classId)) == Some(classId)
    ensures ParseLine(FormatLine(classId, bbox, fmt), toInt, toFloat).Ok?
    ensures ParseLine(FormatLine(classId, bbox, fmt), toInt, toFloat).value.classId == classId
    ensures |ParseLine(FormatLine(classId, bbox, fmt), toInt, toFloat).value.bbox| == |bbox|
    ensures forall i :: 0 <= i < |bbox| ==>
      toFloat(fmt(bbox[i])) == Some(ParseLine(FormatLine(classId, bbox, fmt), toInt, toFloat).value.bbox[i])
  {
    FormatLineWords(classId, bbox, fmt);
    var parts := Text.Words(FormatLine(classId, bbox, fmt));
    var fs := seq(|bbox|, i requires 0 <= i < |bbox| => fmt(bbox[i]));
    assert parts[1..] == fs;
    forall i | 0 <= i < |fs| ensures toFloat(fs[i]).Some? {
      var v := bbox[i];
      assert fs[i] == fmt(v);
      assert fmt(v) != [] && Text.NoSpace(fmt(v)) && toFloat(fmt(v)).Some?;
    }
    var r := ParseFloats(fs, toFloat);
    assert r.Ok?;
  }

  /** `YOLOHandler`: an optional file path and the annotation lines. */
  class YOLOHandler {
    var filePath: Option<string>
    var data: seq<string>

    constructor(filePath: Option<string>)
      ensures this.filePath == filePath && data == []
    {
      this.filePath := filePath;
      data := [];
    }

    /** `load`: raises without a path, else keeps the stripped lines of the file. */
    method Load(lines: seq<string>) returns (r: Result<seq<string>, string>)
      modifies this`data
      ensures !Truthy(filePath) ==> r == Err(NoPath) && data == old(data)
      ensures Truthy(filePath) ==> |data| == |lines| && r == Ok(data)
      ensures Truthy(filePath) ==> forall i :: 0 <= i < |lines| ==> data[i] == Text.Strip(lines[i])
    {
      if !Truthy(filePath) {
        return Err(NoPath);
      }
      data := seq(|lines|, i requires 0 <= i < |lines| => Text.Strip(lines[i]));
      r := Ok(data);
    }

    /** `save`: the path written to, or the error raised. */
    method Save(explicit: Option<string>) returns (r: Result<string, string>)
      ensures r == SavePath(explicit, filePath)
    {
      var path := if Truthy(explicit) then explicit else filePath;
      if !Truthy(path) {
        return Err(NoPath);
      }
      r := Ok(path.value);
    }

    /** `add_annotation`: exactly one formatted line more, at the end. */
    method AddAnnotation(classId: int, bbox: seq<real>, fmt: real -> string)
      modifies this`data
      ensures data == old(data) + [FormatLine(classId, bbox, fmt)]
    {
      var line := FormatLine(classId, bbox, fmt);
      data := data + [line];
    }

    /** `get_annotations`: one parsed annotation per stored line. */
    function GetAnnotations(toInt: string -> Option<int>, toFloat: string -> Option<real>): (r: Result<seq<Annotation>, string>)
      reads this
      ensures r.Ok? ==> |r.value| == |data|
      ensures r.Err? <==> exists i :: 0 <= i < |data| && ParseLine(data[i], toInt, toFloat).Err?
    {
      ParseAll(data, toInt, toFloat)
    }
  }
}
