/**
 * Line-number extraction from OCR labels of a piping drawing (`extract_line_number.py`).
 *
 * A line number is either found whole by one of the line patterns, or assembled from the
 * title-block table as `{draw_1}-{line_size}-{draw_2}-{spec}`: the labels are sorted top to
 * bottom, classified into SIZE, DRAWING and SPEC headers, and the value under each header is
 * read through the "box below" search. The regular expressions used as classifiers and the
 * geometric box-below search are oracles; the three expressions that take the value apart
 * (`^\d{1,2}(.)?$`, `[^A-Z0-9]`, `([A-Z]{1,2})(\d+)` and `(\d+)`) are written out.
 */
module LineNumber {
  import opened Wrappers
  import opened Seqs
  import Text
  import O = OcrBoxes

  /** One OCR label: its text, its four corners and the recogniser's confidence. */
  datatype Label = Label(text: string, box: O.Quad, confidence: real)

  /**
   * The regular expressions used as classifiers, and `find_box_below(label, data)`.
   * `linePatterns` holds, for each of `patterns_line` in order, what `re.search(p, text)`
   * matched, if anything.
   */
  datatype Oracles = Oracles(
    lineSmall: string -> bool,
    sizeWord: string -> bool,
    drawingWord: string -> bool,
    specificationWord: string -> bool,
    specWord: string -> bool,
    linePatterns: seq<string -> Option<string>>,
    docNumber: string -> bool,
    below: (Label, seq<Label>) -> Option<Label>)

  const DefaultSize := "XX\""
  const DefaultLetters := "X"
  const DefaultDigits := "XXXXX"
  const DefaultSpec := "XXXXX"

  // ---------------------------------------------------------------------------
  // data.sort(key=lambda box: min(point[1] for point in box['box']))
  // ---------------------------------------------------------------------------

  /** The sort key: the smallest y of the label's corners. */
  function MinY(l: Label): real
  {
    O.Least(O.Ys(l.box))
  }

  predicate SortedByY(s: seq<Label>)
  {
    forall i, j :: 0 <= i < j < |s| ==> MinY(s[i]) <= MinY(s[j])
  }

  /** Insert before the first label whose key is not smaller, so that equal keys keep their order. */
  function InsertByY(x: Label, s: seq<Label>): seq<Label>
  {
    if s == [] then [x]
    else if MinY(x) <= MinY(s[0]) then [x] + s
    else [s[0]] + InsertByY(x, s[1..])
  }

  /** Python's stable `list.sort` on the key `MinY`. */
  function SortByY(xs: seq<Label>): seq<Label>
  {
    if xs == [] then [] else InsertByY(xs[0], SortByY(xs[1..]))
  }

  /** The labels with key `k`, in order. */
  function WithY(s: seq<Label>, k: real): seq<Label>
  {
    if s == [] then [] else (if MinY(s[0]) == k then [s[0]] else []) + WithY(s[1..], k)
  }

  lemma {:induction false} InsertByYFacts(x: Label, s: seq<Label>)
    requires SortedByY(s)
    ensures SortedByY(InsertByY(x, s))
    ensures multiset(InsertByY(x, s)) == multiset{x} + multiset(s)
  {
    InsertByYMultiset(x, s);
    if s != [] && MinY(x) > MinY(s[0]) {
      InsertByYFacts(x, s[1..]);
      InsertByYBound(x, s[1..], MinY(s[0]));
    }
  }

  lemma {:induction false} InsertByYMultiset(x: Label, s: seq<Label>)
    ensures multiset(InsertByY(x, s)) == multiset{x} + multiset(s)
  {
    if s != [] && MinY(x) > MinY(s[0]) {
      InsertByYMultiset(x, s[1..]);
      assert s == [s[0]] + s[1..];
    }
  }

  /** A lower bound of `x` and of every label of `s` bounds every label after insertion. */
  lemma {:induction false} InsertByYBound(x: Label, s: seq<Label>, b: real)
    requires b <= MinY(x) && forall i :: 0 <= i < |s| ==> b <= MinY(s[i])
    ensures forall j :: 0 <= j < |InsertByY(x, s)| ==> b <= MinY(InsertByY(x, s)[j])
  {
    if s != [] && MinY(x) > MinY(s[0]) {
      InsertByYBound(x, s[1..], b);
      var r := InsertByY(x, s[1..]);
      assert forall j :: 0 < j < |r| + 1 ==> ([s[0]] + r)[j] == r[j - 1];
    }
  }

  lemma {:induction false} InsertByYWithY(x: Label, s: seq<Label>, k: real)
    ensures WithY(InsertByY(x, s), k) == (if MinY(x) == k then [x] else []) + WithY(s, k)
  {
    if s == [] {
      WithYCons(x, [], k);
    } else if MinY(x) <= MinY(s[0]) {
      WithYCons(x, s, k);
    } else {
      InsertByYWithY(x, s[1..], k);
      InsertLaterWithY(x, s, k);
    }
  }

  /** Inserting past the head keeps the head first; it and `x` cannot both have key `k`. */
  lemma InsertLaterWithY(x: Label, s: seq<Label>, k: real)
    requires s != [] && MinY(x) > MinY(s[0])
    requires WithY(InsertByY(x, s[1..]), k) == (if MinY(x) == k then [x] else []) + WithY(s[1..], k)
    ensures WithY(InsertByY(x, s), k) == (if MinY(x) == k then [x] else []) + WithY(s, k)
  {
    var c0 := if MinY(s[0]) == k then [s[0]] else [];
    var xk := if MinY(x) == k then [x] else [];
    var rest := WithY(s[1..], k);
    assert InsertByY(x, s) == [s[0]] + InsertByY(x, s[1..]);
    WithYCons(s[0], InsertByY(x, s[1..]), k);
    WithYCons(s[0], s[1..], k);
    assert [s[0]] + s[1..] == s;
    assert c0 == [] || xk == [];
    SwapEmpty(c0, xk, rest);
  }

  /** Two sequences of which one is empty can be prepended in either order. */
  lemma SwapEmpty<T>(a: seq<T>, b: seq<T>, rest: seq<T>)
    requires a == [] || b == []
    ensures a + (b + rest) == b + (a + rest)
  {
    if a == [] {
      assert a + (b + rest) == b + rest == b + (a + rest);
    } else {
      assert a + (b + rest) == a + rest == b + (a + rest);
    }
  }

  /** The labels of `[y] + t` with key `k`: `y` when its key is `k`, then those of `t`. */
  lemma WithYCons(y: Label, t: seq<Label>, k: real)
    ensures WithY([y] + t, k) == (if MinY(y) == k then [y] else []) + WithY(t, k)
  {
    assert ([y] + t)[1..] == t;
  }

  /**
   * The sort orders the labels by their smallest y, keeps every label, and keeps labels with
   * equal keys in their original order: together these pin `list.sort` down exactly.
   */
  lemma {:induction false} SortByYFacts(xs: seq<Label>, k: real)
    ensures SortedByY(SortByY(xs))
    ensures multiset(SortByY(xs)) == multiset(xs)
    ensures WithY(SortByY(xs), k) == WithY(xs, k)
  {
    if xs != [] {
      SortByYFacts(xs[1..], k);
      InsertByYFacts(xs[0], SortByY(xs[1..]));
      InsertByYWithY(xs[0], SortByY(xs[1..]), k);
      assert xs == [xs[0]] + xs[1..];
    }
  }

  // ---------------------------------------------------------------------------
  // Classification of the labels
  // ---------------------------------------------------------------------------

  /** `text.replace(" ", "")`. */
  function Squeeze(s: string): (r: string)
    ensures ' ' !in r && |r| <= |s|
  {
    if s == [] then [] else (if s[0] == ' ' then [] else [s[0]]) + Squeeze(s[1..])
  }

  datatype Kind = SmallLine | SizeHeader | DrawingHeader | SpecHeader | Unclassified

  /** The `if`/`elif` chain: the first pattern that matches the squeezed text decides. */
  function KindOf(o: Oracles, l: Label): Kind
  {
    var t := Squeeze(l.text);
    if o.lineSmall(t) then SmallLine
    else if o.sizeWord(t) then SizeHeader
    else if o.drawingWord(t) then DrawingHeader
    else if o.specificationWord(t) || o.specWord(t) then SpecHeader
    else Unclassified
  }

  /** The labels of one kind, in order. */
  function Bucket(o: Oracles, xs: seq<Label>, k: Kind): seq<Label>
  {
    if xs == [] then []
    else Bucket(o, xs[..|xs| - 1], k) + (if KindOf(o, xs[|xs| - 1]) == k then [xs[|xs| - 1]] else [])
  }

  /** `no_line_small`: the squeezed texts of the small line labels, in order. */
  function SmallTexts(o: Oracles, xs: seq<Label>): seq<string>
  {
    if xs == [] then []
    else
      SmallTexts(o, xs[..|xs| - 1])
      + (if KindOf(o, xs[|xs| - 1]) == SmallLine then [Squeeze(xs[|xs| - 1].text)] else [])
  }

  /** A label is in a bucket exactly when it is one of the labels and is of that kind. */
  lemma {:induction false} BucketMembers(o: Oracles, xs: seq<Label>, k: Kind, l: Label)
    ensures l in Bucket(o, xs, k) <==> l in xs && KindOf(o, l) == k
  {
    if xs != [] {
      var init := xs[..|xs| - 1];
      BucketMembers(o, init, k, l);
      assert xs == init + [xs[|xs| - 1]];
    }
  }

  /** The four buckets and the unclassified labels share out the labels: each lands in one place. */
  lemma {:induction false} BucketsPartition(o: Oracles, xs: seq<Label>)
    ensures |SmallTexts(o, xs)| + |Bucket(o, xs, SizeHeader)| + |Bucket(o, xs, DrawingHeader)|
      + |Bucket(o, xs, SpecHeader)| + |Bucket(o, xs, Unclassified)| == |xs|
    ensures |Bucket(o, xs, SmallLine)| == |SmallTexts(o, xs)|
  {
    if xs != [] {
      BucketsPartition(o, xs[..|xs| - 1]);
    }
  }

  /** The classification loop: one pass, appending each label to the list of its kind. */
  method ClassifyLabels(o: Oracles, data: seq<Label>)
    returns (small: seq<string>, sizes: seq<Label>, drawings: seq<Label>, specs: seq<Label>)
    ensures small == SmallTexts(o, data)
    ensures sizes == Bucket(o, data, SizeHeader)
    ensures drawings == Bucket(o, data, DrawingHeader)
    ensures specs == Bucket(o, data, SpecHeader)
  {
    small, sizes, drawings, specs := [], [], [], [];
    var k := 0;
    while k < |data|
      invariant 0 <= k <= |data|
      invariant small == SmallTexts(o, data[..k])
      invariant sizes == Bucket(o, data[..k], SizeHeader)
      invariant drawings == Bucket(o, data[..k], DrawingHeader)
      invariant specs == Bucket(o, data[..k], SpecHeader)
    {
      var lab := data[k];
      var text := Squeeze(lab.text);
      TakeSnoc(data, k);
      assert data[..k + 1][..k] == data[..k];
      if o.lineSmall(text) {
        small := small + [text];
      } else if o.sizeWord(text) {
        sizes := sizes + [lab];
      } else if o.drawingWord(text) {
        drawings := drawings + [lab];
      } else if o.specificationWord(text) || o.specWord(text) {
        specs := specs + [lab];
      }
      k := k + 1;
    }
    TakeAll(data);
  }

  // ---------------------------------------------------------------------------
  // The value under each header
  // ---------------------------------------------------------------------------

  /** Python's `list.reverse()`. */
  function Reverse<T>(s: seq<T>): (r: seq<T>)
    ensures |r| == |s| && forall i :: 0 <= i < |s| ==> r[i] == s[|s| - 1 - i]
  {
    if s == [] then [] else Reverse(s[1..]) + [s[0]]
  }

  /** `\d{1,2}(.)?` matched against the whole of `s` (`.` is anything but a newline). */
  predicate SizeBody(s: string)
  {
    (|s| == 1 && Text.IsDigit(s[0]))
    || (|s| == 2 && Text.IsDigit(s[0]) && s[1] != '\n')
    || (|s| == 3 && Text.IsDigit(s[0]) && Text.IsDigit(s[1]) && s[2] != '\n')
  }

  /** `re.match(r'^\d{1,2}(.)?$', s)`: `$` also matches before a final newline. */
  predicate SizeShape(s: string)
  {
    SizeBody(s) || (|s| >= 1 && s[|s| - 1] == '\n' && SizeBody(s[..|s| - 1]))
  }

  /** What a SIZE header offers: the squeezed text of the box below, when it looks like a size. */
  function SizeBelow(o: Oracles, data: seq<Label>, l: Label): (r: Option<string>)
    ensures r.Some? ==> SizeShape(r.value)
  {
    match o.below(l, data)
    case None => None
    case Some(d) => if SizeShape(Squeeze(d.text)) then Some(Squeeze(d.text)) else None
  }

  /** The first header in `cands` that offers a size. */
  function FirstSize(o: Oracles, data: seq<Label>, cands: seq<Label>): (r: Option<string>)
    ensures r.Some? ==> SizeShape(r.value)
  {
    if cands == [] then None
    else if SizeBelow(o, data, cands[0]).Some? then SizeBelow(o, data, cands[0])
    else FirstSize(o, data, cands[1..])
  }

  /**
   * The size loop over the reversed SIZE headers, stopping at the first that offers a size.
   */
  method PickSize(o: Oracles, data: seq<Label>, sizes: seq<Label>) returns (size: Option<string>)
    ensures size == FirstSize(o, data, Reverse(sizes))
  {
    var rev := Reverse(sizes);
    size := None;
    var k := 0;
    while k < |rev|
      invariant 0 <= k <= |rev|
      invariant FirstSize(o, data, rev) == FirstSize(o, data, rev[k..])
    {
      assert rev[k..][1..] == rev[k + 1..];
      var down := o.below(rev[k], data);
      if down.None? {
        k := k + 1;
        continue;
      }
      var text := Squeeze(down.value.text);
      if SizeShape(text) {
        size := Some(text);
        return;
      }
      k := k + 1;
    }
  }

  /**
   * Since the headers are sorted top to bottom, the size comes from the lowest SIZE header that
   * offers one: header `j` offers it and no header below it offers any.
   */
  lemma {:induction false} LowestSize(o: Oracles, data: seq<Label>, sizes: seq<Label>) returns (j: int)
    ensures FirstSize(o, data, Reverse(sizes)).None? <==> forall i :: 0 <= i < |sizes| ==> SizeBelow(o, data, sizes[i]).None?
    ensures FirstSize(o, data, Reverse(sizes)).Some? ==>
      0 <= j < |sizes| && SizeBelow(o, data, sizes[j]) == FirstSize(o, data, Reverse(sizes))
      && forall i :: j < i < |sizes| ==> SizeBelow(o, data, sizes[i]).None?
  {
    j := FirstOffer(o, data, Reverse(sizes));
    if 0 <= j < |sizes| {
      j := |sizes| - 1 - j;
    }
    forall i | 0 <= i < |sizes| ensures SizeBelow(o, data, sizes[i]) == SizeBelow(o, data, Reverse(sizes)[|sizes| - 1 - i]) {
      var n := |sizes| - 1 - i;
      assert |sizes| - 1 - n == i;
      assert Reverse(sizes)[n] == sizes[i];
    }
  }

  /** The position of the first header in `cands` that offers a size, or -1. */
  lemma {:induction false} FirstOffer(o: Oracles, data: seq<Label>, cands: seq<Label>) returns (j: int)
    ensures FirstSize(o, data, cands).None? <==> forall i :: 0 <= i < |cands| ==> SizeBelow(o, data, cands[i]).None?
    ensures FirstSize(o, data, cands).Some? ==>
      0 <= j < |cands| && SizeBelow(o, data, cands[j]) == FirstSize(o, data, cands)
      && forall i :: 0 <= i < j ==> SizeBelow(o, data, cands[i]).None?
  {
    if cands == [] {
      j := -1;
    } else if SizeBelow(o, data, cands[0]).Some? {
      j := 0;
    } else {
      var t := FirstOffer(o, data, cands[1..]);
      j := t + 1;
      forall i | 0 <= i < |cands[1..]| ensures cands[1..][i] == cands[i + 1] {
      }
      forall i | 0 < i < |cands| ensures cands[i] == cands[1..][i - 1] {
      }
    }
  }

  /** `re.sub(r"[^A-Z0-9]", "", s)`: only capital letters and decimal digits are kept. */
  predicate Kept(c: char)
  {
    'A' <= c <= 'Z' || Text.IsDigit(c)
  }

  function Clean(s: string): (r: string)
    ensures |r| <= |s|
    ensures forall i :: 0 <= i < |r| ==> Kept(r[i])
    ensures forall c :: c in r <==> c in s && Kept(c)
  {
    if s == [] then [] else (if Kept(s[0]) then [s[0]] else []) + Clean(s[1..])
  }

  /** Cleaning twice is cleaning once. */
  lemma CleanIdempotent(s: string)
    ensures Clean(Clean(s)) == Clean(s)
  {
    CleanFixed(Clean(s));
  }

  /** A string of kept characters is its own cleaning. */
  lemma {:induction false} CleanFixed(s: string)
    requires forall i :: 0 <= i < |s| ==> Kept(s[i])
    ensures Clean(s) == s
  {
    if s != [] {
      CleanFixed(s[1..]);
      assert [s[0]] + s[1..] == s;
    }
  }

  /** What a DRAWING header offers: the cleaned text of whatever box lies below it. */
  function DrawingBelow(o: Oracles, data: seq<Label>, l: Label): Option<string>
  {
    match o.below(l, data)
    case None => None
    case Some(d) => Some(Clean(d.text))
  }

  /** The first header in `cands` with a box below. */
  function FirstDrawing(o: Oracles, data: seq<Label>, cands: seq<Label>): (r: Option<string>)
    ensures r.Some? ==> forall i :: 0 <= i < |r.value| ==> Kept(r.value[i])
    ensures r.None? <==> forall i :: 0 <= i < |cands| ==> o.below(cands[i], data).None?
  {
    if cands == [] then None
    else if o.below(cands[0], data).Some? then DrawingBelow(o, data, cands[0])
    else
      var r := FirstDrawing(o, data, cands[1..]);
      assert forall i :: 0 < i < |cands| ==> cands[i] == cands[1..][i - 1];
      r
  }

  /** The drawing loop over the reversed DRAWING headers, stopping at the first with a box below. */
  method PickDrawing(o: Oracles, data: seq<Label>, drawings: seq<Label>) returns (drawing: Option<string>)
    ensures drawing == FirstDrawing(o, data, Reverse(drawings))
  {
    var rev := Reverse(drawings);
    drawing := None;
    var k := 0;
    while k < |rev|
      invariant 0 <= k <= |rev|
      invariant FirstDrawing(o, data, rev) == FirstDrawing(o, data, rev[k..])
    {
      assert rev[k..][1..] == rev[k + 1..];
      var down := o.below(rev[k], data);
      if down.None? {
        k := k + 1;
        continue;
      }
      drawing := Some(Clean(down.value.text));
      return;
    }
  }

  /** The state of the spec loop: the chosen text and the confidence to beat. */
  datatype SpecChoice = SpecChoice(spec: Option<string>, conf: real)

  /** A SPEC header is a candidate when the cleaned text below it has exactly 5 characters. */
  predicate Candidate(o: Oracles, data: seq<Label>, l: Label)
  {
    o.below(l, data).Some? && |Clean(o.below(l, data).value.text)| == 5
  }

  /** The confidence of a candidate's box below. */
  function Confidence(o: Oracles, data: seq<Label>, l: Label): real
    requires Candidate(o, data, l)
  {
    o.below(l, data).value.confidence
  }

  /** The spec loop: a candidate replaces the choice only with a strictly higher confidence. */
  function SpecScan(o: Oracles, data: seq<Label>, xs: seq<Label>): (c: SpecChoice)
    ensures c.spec.Some? ==> |c.spec.value| == 5 && forall i :: 0 <= i < 5 ==> Kept(c.spec.value[i])
    ensures c.spec.None? ==> c.conf == -1.0
  {
    if xs == [] then SpecChoice(None, -1.0)
    else
      var c := SpecScan(o, data, xs[..|xs| - 1]);
      var l := xs[|xs| - 1];
      if Candidate(o, data, l) && Confidence(o, data, l) > c.conf
      then SpecChoice(Some(Clean(o.below(l, data).value.text)), Confidence(o, data, l))
      else c
  }

  method PickSpec(o: Oracles, data: seq<Label>, specs: seq<Label>) returns (spec: Option<string>)
    ensures spec == SpecScan(o, data, specs).spec
  {
    spec := None;
    var conf := -1.0;
    var k := 0;
    while k < |specs|
      invariant 0 <= k <= |specs|
      invariant SpecChoice(spec, conf) == SpecScan(o, data, specs[..k])
    {
      TakeSnoc(specs, k);
      assert specs[..k + 1][..k] == specs[..k];
      var down := o.below(specs[k], data);
      if down.None? {
        k := k + 1;
        continue;
      }
      var text := Clean(down.value.text);
      if |text| == 5 && down.value.confidence > conf {
        spec := Some(text);
        conf := down.value.confidence;
      }
      k := k + 1;
    }
    TakeAll(specs);
  }

  /**
   * The spec is the text under the first candidate of strictly highest confidence: candidate
   * `j` chose it, every earlier candidate is strictly less confident, no candidate is more
   * confident, and a confidence of -1 or less never counts. Without such a candidate there
   * is no spec.
   */
  lemma BestSpec(o: Oracles, data: seq<Label>, xs: seq<Label>) returns (j: int)
    ensures SpecScan(o, data, xs).spec.None? <==>
      forall i :: 0 <= i < |xs| && Candidate(o, data, xs[i]) ==> Confidence(o, data, xs[i]) <= -1.0
    ensures SpecScan(o, data, xs).spec.Some? ==>
      0 <= j < |xs| && Candidate(o, data, xs[j])
      && SpecScan(o, data, xs).spec.value == Clean(o.below(xs[j], data).value.text)
      && SpecScan(o, data, xs).conf == Confidence(o, data, xs[j]) > -1.0
      && (forall i :: 0 <= i < j && Candidate(o, data, xs[i]) ==> Confidence(o, data, xs[i]) < Confidence(o, data, xs[j]))
      && (forall i :: 0 <= i < |xs| && Candidate(o, data, xs[i]) ==> Confidence(o, data, xs[i]) <= Confidence(o, data, xs[j]))
  {
    SpecUpper(o, data, xs);
    j := -1;
    if SpecScan(o, data, xs).spec.Some? {
      j := SpecWitness(o, data, xs);
    }
  }

  /** No candidate beats the confidence the loop ends with; a chosen spec beat -1. */
  lemma {:induction false} SpecUpper(o: Oracles, data: seq<Label>, xs: seq<Label>)
    ensures SpecScan(o, data, xs).spec.Some? ==> SpecScan(o, data, xs).conf > -1.0
    ensures forall i :: 0 <= i < |xs| && Candidate(o, data, xs[i]) ==>
      Confidence(o, data, xs[i]) <= SpecScan(o, data, xs).conf
  {
    if xs != [] {
      var init := xs[..|xs| - 1];
      SpecUpper(o, data, init);
      assert forall i :: 0 <= i < |init| ==> xs[i] == init[i];
    }
  }

  /** The candidate that set the final choice, with every earlier candidate strictly less confident. */
  lemma {:induction false} SpecWitness(o: Oracles, data: seq<Label>, xs: seq<Label>) returns (j: int)
    requires SpecScan(o, data, xs).spec.Some?
    ensures 0 <= j < |xs| && Candidate(o, data, xs[j])
    ensures SpecScan(o, data, xs).spec.value == Clean(o.below(xs[j], data).value.text)
    ensures SpecScan(o, data, xs).conf == Confidence(o, data, xs[j])
    ensures forall i :: 0 <= i < j && Candidate(o, data, xs[i]) ==> Confidence(o, data, xs[i]) < Confidence(o, data, xs[j])
  {
    var init := xs[..|xs| - 1];
    var l := xs[|xs| - 1];
    var c := SpecScan(o, data, init);
    assert forall i :: 0 <= i < |init| ==> xs[i] == init[i];
    if Candidate(o, data, l) && Confidence(o, data, l) > c.conf {
      SpecUpper(o, data, init);
      j := |xs| - 1;
    } else {
      j := SpecWitness(o, data, init);
    }
  }

  // ---------------------------------------------------------------------------
  // String assembly
  // ---------------------------------------------------------------------------

  /**
   * `line_size`: `XX"` without a size; a size ending in a digit gets a `"` appended, one ending
   * in `"` is kept, and otherwise its last character is replaced by `"`.
   */
  function LineSize(size: Option<string>): (r: string)
    requires size.Some? ==> size.value != ""
    ensures |r| >= 1 && r[|r| - 1] == '"'
    ensures size.None? ==> r == DefaultSize
    ensures size.Some? ==> |r| == (if Text.IsDigit(size.value[|size.value| - 1]) then |size.value| + 1 else |size.value|)
    ensures size.Some? ==> r[..|r| - 1] == size.value[..|r| - 1]
  {
    match size
    case None => DefaultSize
    case Some(s) =>
      if !Text.IsDigit(s[|s| - 1]) then
        if s[|s| - 1] != '"' then s[..|s| - 1] + "\"" else s
      else s + "\""
  }

  /** A line size is a fixed point: it already ends in `"`. */
  lemma LineSizeIdempotent(size: Option<string>)
    requires size.Some? ==> size.value != ""
    ensures LineSize(Some(LineSize(size))) == LineSize(size)
  {
  }

  /** A size read without a newline yields a line size without a hyphen. */
  lemma LineSizeNoHyphen(s: string)
    requires SizeShape(s) && '\n' !in s
    ensures '-' !in LineSize(Some(s))
  {
    BodyLineSize(s);
  }

  /** The line size of a matched size body is made of its digits and a final `"`. */
  lemma BodyLineSize(s: string)
    requires SizeBody(s)
    ensures '-' !in LineSize(Some(s))
  {
    var r := LineSize(Some(s));
    var last := s[|s| - 1];
    if Text.IsDigit(last) {
      assert r == s + "\"";
      assert forall i :: 0 <= i < |s| ==> Text.IsDigit(s[i]);
    } else if last == '"' {
      assert r == s;
    } else {
      assert r == s[..|s| - 1] + "\"";
      assert forall i :: 0 <= i < |s| - 1 ==> Text.IsDigit(s[i]);
    }
  }

  /** With a newline after a hyphen, `$` lets the hyphen through into the line size. */
  lemma LineSizeHyphenAfterNewline()
    ensures SizeShape("1-\n") && LineSize(Some("1-\n")) == "1-\""
  {
    assert "1-\n"[..2] == "1-";
  }

  predicate Upper(c: char) { 'A' <= c <= 'Z' }

  /**
   * Group 1 of the leftmost match of `([A-Z]{1,2})(\d+)`: two capitals before a digit if
   * there are, else one.
   */
  function LetterCode(s: string): (r: Option<string>)
    ensures r.Some? ==> 1 <= |r.value| <= 2 && forall i :: 0 <= i < |r.value| ==> Upper(r.value[i])
  {
    if |s| < 2 then None
    else if |s| >= 3 && Upper(s[0]) && Upper(s[1]) && Text.IsDigit(s[2]) then Some(s[..2])
    else if Upper(s[0]) && Text.IsDigit(s[1]) then Some(s[..1])
    else LetterCode(s[1..])
  }

  /** The pattern matches somewhere exactly when a capital is followed by a digit somewhere. */
  lemma {:induction false} LetterCodeFound(s: string)
    ensures LetterCode(s).Some? <==> exists i :: 0 <= i < |s| - 1 && Upper(s[i]) && Text.IsDigit(s[i + 1])
  {
    if |s| >= 2 {
      LetterCodeFound(s[1..]);
      if exists i :: 0 <= i < |s| - 1 && Upper(s[i]) && Text.IsDigit(s[i + 1]) {
        var i :| 0 <= i < |s| - 1 && Upper(s[i]) && Text.IsDigit(s[i + 1]);
        if i > 0 {
          assert Upper(s[1..][i - 1]) && Text.IsDigit(s[1..][i]);
        }
      }
      if LetterCode(s[1..]).Some? && LetterCode(s) == LetterCode(s[1..]) {
        var i :| 0 <= i < |s[1..]| - 1 && Upper(s[1..][i]) && Text.IsDigit(s[1..][i + 1]);
        assert Upper(s[i + 1]) && Text.IsDigit(s[i + 2]);
      }
    }
  }

  /** The longest run of digits at the start of `s`. */
  function DigitRun(s: string): (r: string)
    ensures |r| <= |s| && r == s[..|r|] && Text.AllDigits(r)
    ensures |r| < |s| ==> !Text.IsDigit(s[|r|])
  {
    if s != [] && Text.IsDigit(s[0]) then [s[0]] + DigitRun(s[1..]) else []
  }

  /** Group 1 of the leftmost match of `(\d+)`: the first maximal run of digits. */
  function FirstDigits(s: string): (r: Option<string>)
    ensures r.Some? ==> |r.value| >= 1 && Text.AllDigits(r.value)
    ensures r.None? <==> forall i :: 0 <= i < |s| ==> !Text.IsDigit(s[i])
  {
    if s == [] then None
    else if Text.IsDigit(s[0]) then Some(DigitRun(s))
    else
      var r := FirstDigits(s[1..]);
      assert forall i :: 0 < i < |s| ==> s[i] == s[1..][i - 1];
      r
  }

  /** `draw_1`: the capitals before the first digit run, or "X". */
  function Draw1(drawing: Option<string>): (r: string)
    ensures 1 <= |r| <= 2 && forall i :: 0 <= i < |r| ==> Upper(r[i])
  {
    match drawing
    case None => DefaultLetters
    case Some(d) => LetterCode(d).GetOr(DefaultLetters)
  }

  /** `draw_2`: `digits[:5]` for up to 7 digits, `digits[1:6]` for 8 or more, else "XXXXX". */
  function Draw2(drawing: Option<string>): (r: string)
  {
    match drawing
    case None => DefaultDigits
    case Some(d) =>
      match FirstDigits(d)
      case None => DefaultDigits
      case Some(digits) =>
        if |digits| <= 7 then digits[..if |digits| < 5 then |digits| else 5]
        else digits[1..6]
  }

  /**
   * `draw_2` never exceeds 5 characters: it is a run of between 1 and 5 digits taken from the
   * first digit run of the drawing (exactly 5 of them when the run has at least 5), or the
   * default.
   */
  lemma Draw2Shape(drawing: Option<string>)
    ensures |Draw2(drawing)| <= 5
    ensures Draw2(drawing) == DefaultDigits || (Text.AllDigits(Draw2(drawing)) && |Draw2(drawing)| >= 1)
    ensures drawing.Some? && FirstDigits(drawing.value).Some? ==>
      var digits := FirstDigits(drawing.value).value;
      Text.AllDigits(Draw2(drawing))
      && (if |digits| <= 7 then Draw2(drawing) == digits[..|Draw2(drawing)|]
          else Draw2(drawing) == digits[1..1 + |Draw2(drawing)|])
      && |Draw2(drawing)| == (if |digits| < 5 then |digits| else 5)
  {
  }

  /** The spec piece: the chosen spec, or "XXXXX". */
  function Spec1(spec: Option<string>): string
  {
    spec.GetOr(DefaultSpec)
  }

  /** `f"{draw_1}-{line_size}-{draw_2}-{spec_1}"`. */
  function Assemble(size: Option<string>, drawing: Option<string>, spec: Option<string>): string
    requires size.Some? ==> size.value != ""
  {
    Draw1(drawing) + "-" + LineSize(size) + "-" + Draw2(drawing) + "-" + Spec1(spec)
  }

  /**
   * The table line number splits back into its four pieces at the hyphens, as long as the line
   * size has none and the drawing and spec came out of `Clean`.
   */
  lemma AssembleSplits(size: Option<string>, drawing: Option<string>, spec: Option<string>)
    requires size.Some? ==> size.value != ""
    requires '-' !in LineSize(size)
    requires drawing.Some? ==> forall i :: 0 <= i < |drawing.value| ==> Kept(drawing.value[i])
    requires spec.Some? ==> forall i :: 0 <= i < |spec.value| ==> Kept(spec.value[i])
    ensures Text.Split(Assemble(size, drawing, spec), '-')
      == [Draw1(drawing), LineSize(size), Draw2(drawing), Spec1(spec)]
  {
    var parts := [Draw1(drawing), LineSize(size), Draw2(drawing), Spec1(spec)];
    PiecesWithoutHyphen(drawing, spec);
    JoinFour(Draw1(drawing), LineSize(size), Draw2(drawing), Spec1(spec));
    Text.SplitJoin(parts, '-');
  }

  /** The letter, digit and spec pieces never hold a hyphen. */
  lemma PiecesWithoutHyphen(drawing: Option<string>, spec: Option<string>)
    requires spec.Some? ==> forall i :: 0 <= i < |spec.value| ==> Kept(spec.value[i])
    ensures '-' !in Draw1(drawing) && '-' !in Draw2(drawing) && '-' !in Spec1(spec)
  {
    Draw2Shape(drawing);
    if Draw2(drawing) != DefaultDigits {
      assert Text.AllDigits(Draw2(drawing));
    }
  }

  /** Four pieces joined with hyphens. */
  lemma JoinFour(a: string, b: string, c: string, d: string)
    ensures Text.Join([a, b, c, d], '-') == a + "-" + b + "-" + c + "-" + d
  {
    var parts := [a, b, c, d];
    assert parts[1..] == [b, c, d];
    assert parts[1..][1..] == [c, d];
    assert parts[1..][1..][1..] == [d];
    assert Text.Join([c, d], '-') == c + "-" + d;
    assert Text.Join([b, c, d], '-') == b + "-" + (c + "-" + d);
  }

  /** `Extract_line_number_table` as a function of the labels. */
  function TableOf(o: Oracles, data: seq<Label>): string
  {
    var sorted := SortByY(data);
    Assemble(
      FirstSize(o, sorted, Reverse(Bucket(o, sorted, SizeHeader))),
      FirstDrawing(o, sorted, Reverse(Bucket(o, sorted, DrawingHeader))),
      SpecScan(o, sorted, Bucket(o, sorted, SpecHeader)).spec)
  }

  /**
   * `Extract_line_number_table`: sort the labels, classify them, read the size, drawing and
   * spec under their headers, and assemble the four pieces.
   */
  method ExtractLineNumberTable(o: Oracles, data: seq<Label>) returns (r: string)
    ensures r == TableOf(o, data)
  {
    var sorted := SortByY(data);
    var small, sizes, drawings, specs := ClassifyLabels(o, sorted);
    var size := PickSize(o, sorted, sizes);
    var drawing := PickDrawing(o, sorted, drawings);
    var spec := PickSpec(o, sorted, specs);
    r := Assemble(size, drawing, spec);
  }

  /** The table line number has the four pieces when the size found carries no newline. */
  lemma TableSplits(o: Oracles, data: seq<Label>)
    requires var sorted := SortByY(data);
      var size := FirstSize(o, sorted, Reverse(Bucket(o, sorted, SizeHeader)));
      size.Some? ==> '\n' !in size.value
    ensures |Text.Split(TableOf(o, data), '-')| == 4
  {
    var sorted := SortByY(data);
    var size := FirstSize(o, sorted, Reverse(Bucket(o, sorted, SizeHeader)));
    if size.Some? {
      LineSizeNoHyphen(size.value);
    }
    AssembleSplits(size, FirstDrawing(o, sorted, Reverse(Bucket(o, sorted, DrawingHeader))),
      SpecScan(o, sorted, Bucket(o, sorted, SpecHeader)).spec);
  }

  // ---------------------------------------------------------------------------
  // Extract_line_number, Get_Line_No, Extract_doc_number
  // ---------------------------------------------------------------------------

  /** What one pattern found, label by label. */
  function PatternMatches(search: string -> Option<string>, data: seq<Label>): seq<string>
  {
    if data == [] then []
    else
      PatternMatches(search, data[..|data| - 1])
      + (match search(data[|data| - 1].text) case Some(m) => [m] case None => [])
  }

  /** `no_line`: the matches of the first pattern over all labels, then those of the second, and so on. */
  function LineMatches(patterns: seq<string -> Option<string>>, data: seq<Label>): seq<string>
  {
    if patterns == [] then []
    else LineMatches(patterns[..|patterns| - 1], data) + PatternMatches(patterns[|patterns| - 1], data)
  }

  /** `max(xs, key=len)`: the first of the longest. */
  function Longest(xs: seq<string>): string
    requires xs != []
  {
    if |xs| == 1 then xs[0]
    else
      var r := Longest(xs[..|xs| - 1]);
      if |xs[|xs| - 1]| > |r| then xs[|xs| - 1] else r
  }

  /** `max(..., key=len)` picks an element no shorter than any other and strictly longer than all before it. */
  lemma {:induction false} LongestFirst(xs: seq<string>) returns (j: nat)
    requires xs != []
    ensures j < |xs| && xs[j] == Longest(xs)
    ensures forall i :: 0 <= i < |xs| ==> |xs[i]| <= |Longest(xs)|
    ensures forall i :: 0 <= i < j ==> |xs[i]| < |Longest(xs)|
  {
    if |xs| == 1 {
      j := 0;
    } else {
      var init := xs[..|xs| - 1];
      var t := LongestFirst(init);
      assert forall i :: 0 <= i < |init| ==> xs[i] == init[i];
      if |xs[|xs| - 1]| > |Longest(init)| {
        j := |xs| - 1;
      } else {
        j := t;
      }
    }
  }

  /** A one-element list's longest element is that element. */
  lemma LongestSingle(x: string)
    ensures Longest([x]) == x
  {
  }

  /** `Extract_line_number` on the labels: the one match, the first longest of several, or the table. */
  function LineNumberOf(o: Oracles, data: seq<Label>): string
  {
    var found := LineMatches(o.linePatterns, data);
    if |found| == 1 then found[0]
    else if |found| > 1 then Longest(found)
    else TableOf(o, data)
  }

  /** Searching one more label appends its match, if any. */
  lemma PatternMatchesStep(search: string -> Option<string>, data: seq<Label>, k: nat)
    requires k < |data|
    ensures PatternMatches(search, data[..k + 1])
      == PatternMatches(search, data[..k]) + (match search(data[k].text) case Some(m) => [m] case None => [])
  {
    TakeSnoc(data, k);
    assert data[..k + 1][..k] == data[..k];
  }

  /** Trying one more pattern appends its matches over all labels. */
  lemma LineMatchesStep(patterns: seq<string -> Option<string>>, data: seq<Label>, p: nat)
    requires p < |patterns|
    ensures LineMatches(patterns[..p + 1], data) == LineMatches(patterns[..p], data) + PatternMatches(patterns[p], data)
  {
    TakeSnoc(patterns, p);
    assert patterns[..p + 1][..p] == patterns[..p];
  }

  /** The two nested search loops of `Extract_line_number`, pattern by pattern. */
  method CollectMatches(patterns: seq<string -> Option<string>>, data: seq<Label>) returns (found: seq<string>)
    ensures found == LineMatches(patterns, data)
  {
    found := [];
    var p := 0;
    while p < |patterns|
      invariant 0 <= p <= |patterns|
      invariant found == LineMatches(patterns[..p], data)
    {
      LineMatchesStep(patterns, data, p);
      var k := 0;
      ghost var before := found;
      assert PatternMatches(patterns[p], data[..0]) == [] by { assert data[..0] == []; }
      while k < |data|
        invariant 0 <= k <= |data|
        invariant found == before + PatternMatches(patterns[p], data[..k])
      {
        PatternMatchesStep(patterns[p], data, k);
        var mm := patterns[p](data[k].text);
        if mm.Some? {
          assert PatternMatches(patterns[p], data[..k + 1]) == PatternMatches(patterns[p], data[..k]) + [mm.value];
          Regroup(before, PatternMatches(patterns[p], data[..k]), [mm.value]);
          found := found + [mm.value];
        } else {
          assert PatternMatches(patterns[p], data[..k + 1]) == PatternMatches(patterns[p], data[..k]);
        }
        k := k + 1;
      }
      TakeAll(data);
      p := p + 1;
    }
    TakeAll(patterns);
  }

  /**
   * `Extract_line_number` once the OCR data is at hand: a single match is the answer, several
   * give the first longest, none fall back to the table.
   */
  method ExtractLineNumber(o: Oracles, data: seq<Label>) returns (r: string)
    ensures r == LineNumberOf(o, data)
  {
    var found := CollectMatches(o.linePatterns, data);
    if |found| == 1 {
      return found[0];
    }
    if |found| > 1 {
      return Longest(found);
    }
    r := ExtractLineNumberTable(o, data);
  }

  /**
   * `Extract_doc_number`: the first text matching the document-number pattern, or nothing
   * (the function then falls off its end and returns None).
   */
  method ExtractDocNumber(o: Oracles, texts: seq<string>) returns (r: Option<string>)
    ensures r.None? <==> forall i :: 0 <= i < |texts| ==> !o.docNumber(texts[i])
    ensures r.Some? ==>
      exists j :: 0 <= j < |texts| && texts[j] == r.value && o.docNumber(texts[j])
        && forall i :: 0 <= i < j ==> !o.docNumber(texts[i])
  {
    var k := 0;
    while k < |texts|
      invariant 0 <= k <= |texts|
      invariant forall i :: 0 <= i < k ==> !o.docNumber(texts[i])
    {
      if o.docNumber(texts[k]) {
        return Some(texts[k]);
      }
      k := k + 1;
    }
    return None;
  }

  const LinePrefix := "FMT-MTBE-"
  const LineSuffix := "-XX"

  /** `str(x)` of what `Extract_doc_number` returned: the text, or "None". */
  function ShownDoc(doc: Option<string>): string
  {
    match doc
    case Some(t) => t
    case None => "None"
  }

  /** `Get_Line_No`: the document number between "FMT-MTBE-" and "-XX", "None" when none was found. */
  method GetLineNo(o: Oracles, texts: seq<string>) returns (r: string)
    ensures |r| >= |LinePrefix| + |LineSuffix|
    ensures r[..|LinePrefix|] == LinePrefix && r[|r| - |LineSuffix|..] == LineSuffix
    ensures (forall i :: 0 <= i < |texts| ==> !o.docNumber(texts[i])) ==>
      r[|LinePrefix|..|r| - |LineSuffix|] == "None"
    ensures (exists i :: 0 <= i < |texts| && o.docNumber(texts[i])) ==>
      exists j :: 0 <= j < |texts| && texts[j] == r[|LinePrefix|..|r| - |LineSuffix|] && o.docNumber(texts[j])
        && forall i :: 0 <= i < j ==> !o.docNumber(texts[i])
  {
    var doc := ExtractDocNumber(o, texts);
    r := LinePrefix + ShownDoc(doc) + LineSuffix;
    assert r[..|LinePrefix|] == LinePrefix;
    assert r[|LinePrefix|..|r| - |LineSuffix|] == ShownDoc(doc);
  }
}
