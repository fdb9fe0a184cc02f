/**
 * The OCR records and the three `OCRProcessor` converters that turn them into axis-aligned
 * `OCRBox` values: from a four-corner OCR box, from a symbol detector's `bbox` entities, and
 * from a flat `[x1, y1, x2, y2]` JSON box.
 */
module OcrBoxes {

  /** One corner `[x, y]` of an OCR box. */
  datatype Point = Point(x: real, y: real)

  /** The four corners `box[0]`..`box[3]` of a recognised text box. */
  datatype Quad = Quad(p0: Point, p1: Point, p2: Point, p3: Point)

  /** The `OCRBox` dataclass. */
  datatype OcrBox = OcrBox(x1: real, y1: real, x2: real, y2: real, text: string)

  /** An OCR record: `{"box": [[x, y] * 4], "text": ...}`. */
  datatype OcrRecord = OcrRecord(box: Quad, text: string)

  /** A detector's `bbox` dictionary. */
  datatype BBox = BBox(x1: real, y1: real, x2: real, y2: real)

  /** One entry of `symbols_data["entities"]`. */
  datatype Entity = Entity(bbox: BBox, labelText: string)

  /** The detector's answer; only its `entities` list is read. */
  datatype SymbolsData = SymbolsData(entities: seq<Entity>)

  /** A JSON record with a flat box: `{"box": [a, b, c, d], "text": ...}`. */
  datatype FlatRecord = FlatRecord(b0: real, b1: real, b2: real, b3: real, text: string)

  function Min(a: real, b: real): real { if a <= b then a else b }

  function Max(a: real, b: real): real { if a >= b then a else b }

  /** The box has its first corner above and to the left of its second. */
  predicate Ordered(b: OcrBox)
  {
    b.x1 <= b.x2 && b.y1 <= b.y2
  }

  /** The x and y coordinates of a quad's corners, in corner order. */
  function Xs(q: Quad): seq<real> { [q.p0.x, q.p1.x, q.p2.x, q.p3.x] }

  function Ys(q: Quad): seq<real> { [q.p0.y, q.p1.y, q.p2.y, q.p3.y] }

  /** `min(min(a, b), min(c, d))` over four coordinates: the smallest of them. */
  function Least(s: seq<real>): (m: real)
    requires |s| == 4
    ensures m in s && forall i :: 0 <= i < 4 ==> m <= s[i]
  {
    Min(Min(s[0], s[1]), Min(s[2], s[3]))
  }

  /** `max(max(a, b), max(c, d))` over four coordinates: the largest of them. */
  function Greatest(s: seq<real>): (m: real)
    requires |s| == 4
    ensures m in s && forall i :: 0 <= i < 4 ==> s[i] <= m
  {
    Max(Max(s[0], s[1]), Max(s[2], s[3]))
  }

  /** One element of `convert_ocr_data`: the bounding rectangle of the four corners. */
  function BoundingBox(d: OcrRecord): (b: OcrBox)
    ensures Ordered(b) && b.text == d.text
    ensures b.x1 in Xs(d.box) && b.x2 in Xs(d.box) && b.y1 in Ys(d.box) && b.y2 in Ys(d.box)
    ensures forall i :: 0 <= i < 4 ==> b.x1 <= Xs(d.box)[i] <= b.x2 && b.y1 <= Ys(d.box)[i] <= b.y2
  {
    OcrBox(Least(Xs(d.box)), Least(Ys(d.box)), Greatest(Xs(d.box)), Greatest(Ys(d.box)), d.text)
  }

  /** `convert_ocr_data`: one bounding rectangle per record, in order. */
  function ConvertOcrData(data: seq<OcrRecord>): (r: seq<OcrBox>)
    ensures |r| == |data|
    ensures forall i :: 0 <= i < |r| ==> r[i] == BoundingBox(data[i])
  {
    seq(|data|, i requires 0 <= i < |data| => BoundingBox(data[i]))
  }

  /** Every box `convert_ocr_data` produces is ordered and keeps its record's text. */
  lemma ConvertOcrDataOrdered(data: seq<OcrRecord>, i: nat)
    requires i < |data|
    ensures Ordered(ConvertOcrData(data)[i]) && ConvertOcrData(data)[i].text == data[i].text
  {
  }

  /** The axis-aligned quad of a box, corners in reading order. */
  function CornerQuad(b: OcrBox): Quad
  {
    Quad(Point(b.x1, b.y1), Point(b.x2, b.y1), Point(b.x2, b.y2), Point(b.x1, b.y2))
  }

  /** An ordered box is recovered from its own corners. */
  lemma BoundingBoxOfCorners(b: OcrBox)
    requires Ordered(b)
    ensures BoundingBox(OcrRecord(CornerQuad(b), b.text)) == b
  {
  }

  /** One element of `convert_symbols_data`: the `bbox` fields copied, with the label as text. */
  function EntityBox(e: Entity): OcrBox
  {
    OcrBox(e.bbox.x1, e.bbox.y1, e.bbox.x2, e.bbox.y2, e.labelText)
  }

  /** `convert_symbols_data`: one box per entity, in order. */
  function ConvertSymbolsData(symbols: SymbolsData): (r: seq<OcrBox>)
    ensures |r| == |symbols.entities|
    ensures forall i :: 0 <= i < |r| ==> r[i] == EntityBox(symbols.entities[i])
  {
    seq(|symbols.entities|, i requires 0 <= i < |symbols.entities| => EntityBox(symbols.entities[i]))
  }

  /** The detector entity a box would have come from. */
  function ToEntity(b: OcrBox): Entity
  {
    Entity(BBox(b.x1, b.y1, b.x2, b.y2), b.text)
  }

  /** `convert_symbols_data` loses nothing: any list of boxes is recovered from its entities. */
  lemma {:induction false} SymbolsRoundTrip(boxes: seq<OcrBox>)
    ensures ConvertSymbolsData(SymbolsData(seq(|boxes|, i requires 0 <= i < |boxes| => ToEntity(boxes[i])))) == boxes
  {
    var r := ConvertSymbolsData(SymbolsData(seq(|boxes|, i requires 0 <= i < |boxes| => ToEntity(boxes[i]))));
    assert |r| == |boxes|;
    forall i | 0 <= i < |r| ensures r[i] == boxes[i] {
    }
  }

  /** One element of `json2ocr`: `box[0]`..`box[3]` copied in that order. */
  function FlatBox(d: FlatRecord): OcrBox
  {
    OcrBox(d.b0, d.b1, d.b2, d.b3, d.text)
  }

  /** `json2ocr`: one box per record, in order, without reordering coordinates. */
  function Json2Ocr(data: seq<FlatRecord>): (r: seq<OcrBox>)
    ensures |r| == |data|
    ensures forall i :: 0 <= i < |r| ==> r[i] == FlatBox(data[i])
  {
    seq(|data|, i requires 0 <= i < |data| => FlatBox(data[i]))
  }

  /** The flat JSON record a box is written as. */
  function ToFlat(b: OcrBox): FlatRecord
  {
    FlatRecord(b.x1, b.y1, b.x2, b.y2, b.text)
  }

  /** `json2ocr` reads back exactly the boxes written as flat records. */
  lemma {:induction false} Json2OcrRoundTrip(boxes: seq<OcrBox>)
    ensures Json2Ocr(seq(|boxes|, i requires 0 <= i < |boxes| => ToFlat(boxes[i]))) == boxes
  {
    var r := Json2Ocr(seq(|boxes|, i requires 0 <= i < |boxes| => ToFlat(boxes[i])));
    assert |r| == |boxes|;
    forall i | 0 <= i < |r| ensures r[i] == boxes[i] {
    }
  }

  /** Unlike `convert_ocr_data`, `json2ocr` does not order the corners: a reversed box stays reversed. */
  lemma Json2OcrMayBeUnordered()
    ensures !Ordered(Json2Ocr([FlatRecord(2.0, 0.0, 1.0, 0.0, "t")])[0])
  {
  }
}
