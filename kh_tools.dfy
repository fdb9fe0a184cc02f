/**
 * The KH2 export helpers of `utils/kh/kh_tools.py`: the configuration, the record list a
 * manager builds, the objects appended to a record's annotation, and the conversion of
 * detector results into KH2 objects with axis-aligned boxes.
 *
 * The KH2 types come from a library that is not part of this model; they are reduced to the
 * fields these helpers set.
 */
module KhTools {
  import opened Wrappers
  import opened Seqs
  import O = OcrBoxes

  /** A KH2 attribute (a field of a record's annotation). */
  datatype Attribute = Attribute(name: string, value: string)

  /** `Kh2Bbox(x1, y1, x2, y2)`. */
  datatype Bbox = Bbox(x1: real, y1: real, x2: real, y2: real)

  /** An object's metadata: the library default, or the dictionary given. */
  datatype Metadata = DefaultMetadata | Given(entries: map<string, string>)

  /** `Kh2Object(text, label, bbox, metadata)`. */
  datatype Kh2Object = Kh2Object(text: string, labelText: string, bbox: Bbox, metadata: Metadata)

  /** `KH2Config`: connection settings and the fields every record starts with. */
  datatype Config = Config(apiUrl: string, projectId: string, email: string, password: string,
                           defaultFields: seq<Attribute>)

  /** `KH2Config(...)`: `default_fields or []`. */
  function NewConfig(apiUrl: string, projectId: string, email: string, password: string,
                     defaultFields: Option<seq<Attribute>> := None): (c: Config)
    ensures c.apiUrl == apiUrl && c.projectId == projectId && c.email == email && c.password == password
    ensures defaultFields.None? ==> c.defaultFields == []
    ensures defaultFields.Some? ==> c.defaultFields == defaultFields.value
  {
    Config(apiUrl, projectId, email, password, defaultFields.GetOr([]))
  }

  /** `metadata or Kh2ObjectMetadata()`: a missing or empty dictionary gives the default. */
  function MetadataOf(metadata: Option<map<string, string>>): (m: Metadata)
    ensures m.DefaultMetadata? <==> metadata.None? || metadata.value == map[]
  {
    if metadata.None? || metadata.value == map[] then DefaultMetadata else Given(metadata.value)
  }

  const FlangeText := "flange-joint"
  const FlangeLabel := "flanges"
  const TextLabel := "text"

  /** A `Kh2Record`: the page it describes and its annotation, whose objects grow in place. */
  class Record {
    const imagePath: string
    const filePath: string
    const pageNumber: int
    var fields: seq<Attribute>
    var objects: seq<Kh2Object>

    constructor(imagePath: string, filePath: string, pageNumber: int, fields: seq<Attribute>)
      ensures this.imagePath == imagePath && this.filePath == filePath && this.pageNumber == pageNumber
      ensures this.fields == fields && objects == []
    {
      this.imagePath := imagePath;
      this.filePath := filePath;
      this.pageNumber := pageNumber;
      this.fields := fields;
      objects := [];
    }
  }

  /** `KH2Manager`: the configuration and the records created so far. */
  class KH2Manager {
    const config: Config
    var records: seq<Record>

    constructor(config: Config)
      ensures this.config == config && records == []
    {
      this.config := config;
      records := [];
    }

    /**
     * `create_record`: a new record with the default fields followed by the custom ones and no
     * objects, appended to `records` and returned.
     */
    method CreateRecord(imagePath: string, sourceFile: string, pageNumber: int := 0,
                        customFields: Option<seq<Attribute>> := None) returns (record: Record)
      modifies this`records
      ensures fresh(record)
      ensures records == old(records) + [record]
      ensures record.imagePath == imagePath && record.filePath == sourceFile && record.pageNumber == pageNumber
      ensures record.fields == config.defaultFields + customFields.GetOr([])
      ensures record.objects == []
    {
      record := new Record(imagePath, sourceFile, pageNumber, config.defaultFields + customFields.GetOr([]));
      records := records + [record];
    }

    /** `add_flange_annotation`: one "flanges" object with text "flange-joint" more, at the end. */
    method AddFlangeAnnotation(record: Record, bbox: Bbox, metadata: Option<map<string, string>>)
      returns (obj: Kh2Object)
      modifies record`objects
      ensures obj == Kh2Object(FlangeText, FlangeLabel, bbox, MetadataOf(metadata))
      ensures record.objects == old(record.objects) + [obj]
    {
      obj := Kh2Object(FlangeText, FlangeLabel, bbox, MetadataOf(metadata));
      record.objects := record.objects + [obj];
    }

    /** `add_text_annotation`: one "text" object carrying `text` more, at the end. */
    method AddTextAnnotation(record: Record, text: string, bbox: Bbox, metadata: Option<map<string, string>>)
      returns (obj: Kh2Object)
      modifies record`objects
      ensures obj == Kh2Object(text, TextLabel, bbox, MetadataOf(metadata))
      ensures record.objects == old(record.objects) + [obj]
    {
      obj := Kh2Object(text, TextLabel, bbox, MetadataOf(metadata));
      record.objects := record.objects + [obj];
    }
  }

  // ---------------------------------------------------------------------------
  // KH2Utilities
  // ---------------------------------------------------------------------------

  /** `min(xs)` of a non-empty list. */
  function Smallest(xs: seq<real>): (m: real)
    requires xs != []
    ensures m in xs && forall i :: 0 <= i < |xs| ==> m <= xs[i]
  {
    if |xs| == 1 then xs[0]
    else
      var r := Smallest(xs[1..]);
      assert forall i :: 1 <= i < |xs| ==> xs[i] == xs[1..][i - 1];
      if xs[0] <= r then xs[0] else r
  }

  /** `max(xs)` of a non-empty list. */
  function Largest(xs: seq<real>): (m: real)
    requires xs != []
    ensures m in xs && forall i :: 0 <= i < |xs| ==> xs[i] <= m
  {
    if |xs| == 1 then xs[0]
    else
      var r := Largest(xs[1..]);
      assert forall i :: 1 <= i < |xs| ==> xs[i] == xs[1..][i - 1];
      if xs[0] >= r then xs[0] else r
  }

  function XCoords(points: seq<O.Point>): seq<real>
  {
    seq(|points|, i requires 0 <= i < |points| => points[i].x)
  }

  function YCoords(points: seq<O.Point>): seq<real>
  {
    seq(|points|, i requires 0 <= i < |points| => points[i].y)
  }

  const EmptyMin := "ValueError: min() arg is an empty sequence"

  /** Every point lies within the extremes of the coordinate lists. */
  lemma WithinExtremes(points: seq<O.Point>)
    requires points != []
    ensures forall i :: 0 <= i < |points| ==>
      Smallest(XCoords(points)) <= points[i].x <= Largest(XCoords(points))
      && Smallest(YCoords(points)) <= points[i].y <= Largest(YCoords(points))
  {
    var xs, ys := XCoords(points), YCoords(points);
    forall i | 0 <= i < |points|
      ensures Smallest(xs) <= points[i].x <= Largest(xs) && Smallest(ys) <= points[i].y <= Largest(ys)
    {
      assert xs[i] == points[i].x && ys[i] == points[i].y;
    }
  }

  /** Each extreme is attained by some point. */
  lemma ExtremesAttained(points: seq<O.Point>)
    requires points != []
    ensures exists i :: 0 <= i < |points| && points[i].x == Smallest(XCoords(points))
    ensures exists i :: 0 <= i < |points| && points[i].y == Smallest(YCoords(points))
    ensures exists i :: 0 <= i < |points| && points[i].x == Largest(XCoords(points))
    ensures exists i :: 0 <= i < |points| && points[i].y == Largest(YCoords(points))
  {
    var xs, ys := XCoords(points), YCoords(points);
    var a :| 0 <= a < |xs| && xs[a] == Smallest(xs);
    var b :| 0 <= b < |ys| && ys[b] == Smallest(ys);
    var c :| 0 <= c < |xs| && xs[c] == Largest(xs);
    var d :| 0 <= d < |ys| && ys[d] == Largest(ys);
    assert points[a].x == Smallest(xs) && points[b].y == Smallest(ys);
    assert points[c].x == Largest(xs) && points[d].y == Largest(ys);
  }

  /**
   * `create_bbox_from_points`: `[min x, min y, max x, max y]`, the smallest box holding every
   * point; `min` of no points raises.
   */
  function BboxFromPoints(points: seq<O.Point>): (r: Result<Bbox, string>)
    ensures r.Err? <==> points == []
    ensures r.Err? ==> r.error == EmptyMin
    ensures r.Ok? ==> r.value.x1 <= r.value.x2 && r.value.y1 <= r.value.y2
    ensures r.Ok? ==> forall i :: 0 <= i < |points| ==>
      r.value.x1 <= points[i].x <= r.value.x2 && r.value.y1 <= points[i].y <= r.value.y2
    ensures r.Ok? ==> exists i :: 0 <= i < |points| && points[i].x == r.value.x1
    ensures r.Ok? ==> exists i :: 0 <= i < |points| && points[i].y == r.value.y1
    ensures r.Ok? ==> exists i :: 0 <= i < |points| && points[i].x == r.value.x2
    ensures r.Ok? ==> exists i :: 0 <= i < |points| && points[i].y == r.value.y2
  {
    if points == [] then Err(EmptyMin)
    else
      WithinExtremes(points);
      ExtremesAttained(points);
      Ok(Bbox(Smallest(XCoords(points)), Smallest(YCoords(points)), Largest(XCoords(points)), Largest(YCoords(points))))
  }

  /** The four corners of a box, in reading order. */
  function Corners(b: Bbox): seq<O.Point>
  {
    [O.Point(b.x1, b.y1), O.Point(b.x2, b.y1), O.Point(b.x2, b.y2), O.Point(b.x1, b.y2)]
  }

  /** The corners of a box give back that box. */
  lemma BboxOfCorners(b: Bbox)
    requires b.x1 <= b.x2 && b.y1 <= b.y2
    ensures BboxFromPoints(Corners(b)) == Ok(b)
  {
    var ps := Corners(b);
    var r := BboxFromPoints(ps);
    assert r.value.x1 <= ps[0].x && r.value.y1 <= ps[0].y;
    assert ps[2].x <= r.value.x2 && ps[2].y <= r.value.y2;
  }

  /** One detector result: its polygon and, if present, its "text" and "label". */
  datatype YoloResult = YoloResult(box: seq<O.Point>, text: Option<string>, labelText: Option<string>)

  const DefaultLabel := "object"

  /** The object for one result: `result.get("text", "")`, `result.get("label", "object")`. */
  function YoloObject(r: YoloResult): Result<Kh2Object, string>
  {
    match BboxFromPoints(r.box)
    case Err(e) => Err(e)
    case Ok(b) => Ok(Kh2Object(r.text.GetOr(""), r.labelText.GetOr(DefaultLabel), b, DefaultMetadata))
  }

  /**
   * `convert_yolo_to_kh2`: one object per result, in order, raising at the first empty
   * polygon. The image size is not used.
   */
  method ConvertYoloToKh2(results: seq<YoloResult>) returns (r: Result<seq<Kh2Object>, string>)
    ensures r.Err? <==> exists i :: 0 <= i < |results| && results[i].box == []
    ensures r.Ok? ==> |r.value| == |results|
    ensures r.Ok? ==> forall i :: 0 <= i < |results| ==>
      YoloObject(results[i]) == Ok(r.value[i])
      && r.value[i].text == results[i].text.GetOr("")
      && r.value[i].labelText == results[i].labelText.GetOr(DefaultLabel)
  {
    var objects: seq<Kh2Object> := [];
    var k := 0;
    while k < |results|
      invariant 0 <= k <= |results| && |objects| == k
      invariant forall i :: 0 <= i < k ==> results[i].box != [] && YoloObject(results[i]) == Ok(objects[i])
    {
      var bbox := BboxFromPoints(results[k].box);
      if bbox.Err? {
        return Err(bbox.error);
      }
      var obj := Kh2Object(results[k].text.GetOr(""), results[k].labelText.GetOr(DefaultLabel), bbox.value, DefaultMetadata);
      objects := objects + [obj];
      k := k + 1;
    }
    r := Ok(objects);
  }
}
