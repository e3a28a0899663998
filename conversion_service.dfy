/**
 * The conversion core: validating a Lottie document and deriving its metadata,
 * and rewriting a document into the shape of a Telegram sticker (TGS): at most
 * three seconds long, on a 512 x 512 canvas, with the original content wrapped
 * in one precomposition layer, and without expressions or markers.
 */
module ConversionService {
  import opened Wrappers
  import opened Lottie
  import opened Types

  const JsonMediaType := "application/json"

  const NotJsonMessage := "File is not a JSON."
  const MissingPropertiesMessage := "Invalid Lottie file format. Missing required properties."
  const MalformedMessage := "Failed to parse JSON file."
  const ReadFailedMessage := "Failed to read file."

  /** The sticker canvas is 512 x 512 and a sticker lasts at most three seconds. */
  const TargetSize: real := 512.0
  const MaxSeconds: real := 3.0

  /** The id of the precomposition asset that holds the original layers. */
  const WrapperCompId := "tgs_wrapper_comp"

  datatype Parsed = Parsed(lottieData: Document, metadata: LottieMetadata)

  // ---------------------------------------------------------------------------
  // Validation and metadata
  // ---------------------------------------------------------------------------

  /** `Math.round`: the integer nearest to `x`, halves rounded up. */
  function Round(x: real): (r: int)
    ensures r as real - 0.5 <= x < r as real + 0.5
  {
    (x + 0.5).Floor
  }

  /**
   * The validation check: `w`, `h` and `fr` truthy, `op` and `ip` defined. A document
   * that passes has a non-zero canvas and frame rate, so neither the duration nor the
   * wrapper scale divides by zero.
   */
  predicate HasRequiredFields(d: Document)
    ensures HasRequiredFields(d) ==>
      d.w.Some? && d.h.Some? && d.fr.Some? && d.w.value != 0.0 && d.h.value != 0.0 && d.fr.value != 0.0
  {
    TruthyNumber(d.w) && TruthyNumber(d.h) && TruthyNumber(d.fr) && d.op.Some? && d.ip.Some?
  }

  /** The metadata derived from a validated document. */
  function Metadata(d: Document): (m: LottieMetadata)
    requires HasRequiredFields(d)
    ensures m.width == d.w.value && m.height == d.h.value
    ensures m.frameRate as real - 0.5 <= d.fr.value < m.frameRate as real + 0.5
  {
    LottieMetadata(d.w.value, d.h.value, (d.op.value - d.ip.value) / d.fr.value, Round(d.fr.value))
  }

  /**
   * The duration is the length of the timeline in frames divided by the frame rate.
   * It exceeds three seconds exactly when the timeline exceeds `3 * fr` frames. For a
   * negative frame rate, it is below three seconds exactly when the timeline exceeds
   * `3 * fr` frames.
   */
  lemma DurationSpansTimeline(d: Document)
    requires HasRequiredFields(d)
    ensures Metadata(d).duration * d.fr.value == d.op.value - d.ip.value
    ensures d.fr.value > 0.0 ==> (Metadata(d).duration > MaxSeconds <==> d.op.value - d.ip.value > MaxSeconds * d.fr.value)
    ensures d.fr.value < 0.0 ==> (Metadata(d).duration < MaxSeconds <==> d.op.value - d.ip.value > MaxSeconds * d.fr.value)
  {
    QuotientFacts(d.op.value - d.ip.value, d.fr.value, MaxSeconds);
  }

  /** The quotient `len / fr` times `fr` is `len`, and it compares with `c` as `len` compares with `c * fr`. */
  lemma QuotientFacts(len: real, fr: real, c: real)
    requires fr != 0.0
    ensures (len / fr) * fr == len
    ensures fr > 0.0 ==> (len / fr > c <==> len > c * fr)
    ensures fr < 0.0 ==> (len / fr < c <==> len > c * fr)
  {
    var q := len / fr;
    QuotientTimesDivisor(len, fr);
    ScaledComparison(q, c, fr);
  }

  /** Multiplication distributes over a difference. */
  lemma ShiftedProduct(x: real, c: real, y: real)
    ensures (x - c) * y == x * y - c * y
  {
  }

  /** Multiplying a quotient by its divisor gives back the dividend. */
  lemma QuotientTimesDivisor(x: real, y: real)
    requires y != 0.0
    ensures (x / y) * y == x
  {
  }

  /** A product with a positive factor is positive exactly when the other factor is. */
  lemma PositiveFactor(x: real, y: real)
    requires y > 0.0
    ensures x * y > 0.0 <==> x > 0.0
  {
    if x > 0.0 {
      assert x * y > 0.0;
    } else {
      assert -x * y >= 0.0;
    }
  }

  /** Multiplying both sides of a comparison by a positive number keeps it; by a negative one, reverses it. */
  lemma ScaledComparison(x: real, c: real, y: real)
    ensures y > 0.0 ==> (x > c <==> x * y > c * y)
    ensures y < 0.0 ==> (x < c <==> x * y > c * y)
  {
    ShiftedProduct(x, c, y);
    if y > 0.0 {
      PositiveFactor(x - c, y);
    } else if y < 0.0 {
      ShiftedProduct(c, x, -y);
      PositiveFactor(c - x, -y);
      assert (c - x) * -y == x * y - c * y;
    }
  }

  /** A non-zero factor common to both sides of an equation cancels. */
  lemma CancelFactor(x: real, c: real, y: real)
    requires y != 0.0 && x * y == c * y
    ensures x == c
  {
    ScaledComparison(x, c, y);
    ScaledComparison(c, x, y);
  }

  /**
   * `parseLottieFile`: the declared type is checked before anything is read; then
   * a read failure, a decoding failure or a missing property rejects the file.
   */
  function ParseLottieFile(file: SourceFile): (r: Result<Parsed>)
    ensures file.mediaType != JsonMediaType ==> r == Err(NotJsonMessage)
    ensures file.mediaType == JsonMediaType && file.content.ReadFailure? ==> r == Err(ReadFailedMessage)
    ensures file.mediaType == JsonMediaType && file.content.Malformed? ==> r == Err(MalformedMessage)
    ensures r.Ok? <==>
      file.mediaType == JsonMediaType && file.content.Decoded? && HasRequiredFields(file.content.doc)
    ensures r.Ok? ==>
      r.value.lottieData == file.content.doc && r.value.lottieData.fr.value != 0.0 &&
      r.value.metadata == Metadata(file.content.doc)
    ensures r.Err? ==>
      r.error in {NotJsonMessage, ReadFailedMessage, MalformedMessage, MissingPropertiesMessage}
  {
    if file.mediaType != JsonMediaType then Err(NotJsonMessage)
    else
      match file.content
      case ReadFailure => Err(ReadFailedMessage)
      case Malformed => Err(MalformedMessage)
      case Decoded(d) =>
        if !HasRequiredFields(d) then Err(MissingPropertiesMessage)
        else Ok(Parsed(d, Metadata(d)))
  }

  /**
   * A decoded JSON document with a falsy `w`, `h` or `fr`, or an undefined `op` or
   * `ip`, is rejected as missing properties (the converse is part of `ParseLottieFile`).
   */
  lemma MissingFieldRejected(name: string, d: Document)
    requires d.w.None? || d.h.None? || d.fr.None? || d.w == Some(0.0) || d.h == Some(0.0) ||
             d.fr == Some(0.0) || d.op.None? || d.ip.None?
    ensures ParseLottieFile(SourceFile(name, JsonMediaType, Decoded(d))) == Err(MissingPropertiesMessage)
  {
  }

  /** A zero in-point and a zero out-point are defined, so they pass validation, with a zero duration. */
  lemma ZeroTimingAccepted(name: string, d: Document)
    requires TruthyNumber(d.w) && TruthyNumber(d.h) && TruthyNumber(d.fr)
    requires d.ip == Some(0.0) && d.op == Some(0.0)
    ensures ParseLottieFile(SourceFile(name, JsonMediaType, Decoded(d))).Ok?
    ensures ParseLottieFile(SourceFile(name, JsonMediaType, Decoded(d))).value.metadata.duration == 0.0
  {
  }

  // ---------------------------------------------------------------------------
  // The TGS transform
  // ---------------------------------------------------------------------------

  /** `Math.max` on two numbers. */
  function Max(a: real, b: real): (m: real)
    ensures m >= a && m >= b && (m == a || m == b)
  {
    if a >= b then a else b
  }

  /** When both sides are non-zero their maximum is too, so the scale factor is defined. */
  lemma MaxNonZero(a: real, b: real)
    requires a != 0.0 && b != 0.0
    ensures Max(a, b) != 0.0
  {
  }

  /** The out-point after the duration cap of three seconds. */
  function CappedOutPoint(ip: real, op: real, fr: real): (op': real)
    ensures op' - ip <= MaxSeconds * fr
    ensures op - ip <= MaxSeconds * fr ==> op' == op
    ensures op - ip > MaxSeconds * fr ==> op' == ip + MaxSeconds * fr
    ensures op' <= op
  {
    if op - ip > MaxSeconds * fr then ip + MaxSeconds * fr else op
  }

  /**
   * The wrapper layer for an original canvas of `w` x `h`: it shows the wrapper
   * composition, centred on the sticker canvas, anchored at the centre of the
   * original canvas and scaled uniformly so that the longer side becomes 512.
   */
  function WrapperLayer(w: real, h: real, ip: real, op: real): (l: Layer)
    requires w != 0.0 && h != 0.0
    ensures l.PrecompLayer? && l.ty == 0 && l.refId == WrapperCompId && l.nm == "TGS Wrapper"
    ensures l.ddd == 0 && l.ind == 1 && l.sr == 1 && l.ao == 0 && l.bm == 0
    ensures l.ks.p == Pair(0, TargetSize / 2.0, TargetSize / 2.0)
    ensures l.ks.a == Pair(0, w / 2.0, h / 2.0)
    ensures l.ks.s == Pair(0, ScalePercent(w, h), ScalePercent(w, h))
    ensures l.ks.o == Scalar(0, 100.0) && l.ks.r == Scalar(0, 0.0)
    ensures l.w == w && l.h == h && l.ip == ip && l.op == op && l.st == ip
  {
    var scale := ScalePercent(w, h);
    PrecompLayer(
      0, 1, 0, "TGS Wrapper", WrapperCompId, 1,
      Transform(Scalar(0, 100.0), Scalar(0, 0.0), Pair(0, 256.0, 256.0),
                Pair(0, w / 2.0, h / 2.0), Pair(0, scale, scale)),
      0, w, h, ip, op, ip, 0)
  }

  /** The wrapper's scale in percent, `scaleFactor * 100` with `scaleFactor = 512 / max(w, h)`. */
  function ScalePercent(w: real, h: real): (s: real)
    requires w != 0.0 && h != 0.0
    ensures s * Max(w, h) == TargetSize * 100.0
  {
    MaxNonZero(w, h);
    ScaledQuotient(TargetSize, Max(w, h), 100.0);
    TargetSize / Max(w, h) * 100.0
  }

  /** Scaling a quotient and multiplying by its divisor gives the scaled dividend. */
  lemma ScaledQuotient(x: real, y: real, k: real)
    requires y != 0.0
    ensures (x / y * k) * y == x * k
  {
    QuotientTimesDivisor(x, y);
    assert (x / y * k) * y == ((x / y) * y) * k;
  }

  /** Scaling by `51200 / max(w, h)` percent maps the longer side to 512 and the other to at most 512. */
  lemma FitsTarget(w: real, h: real)
    requires w != 0.0 && h != 0.0
    ensures Max(w, h) * ScalePercent(w, h) / 100.0 == TargetSize
    ensures w > 0.0 && h > 0.0 ==>
      w * ScalePercent(w, h) / 100.0 <= TargetSize && h * ScalePercent(w, h) / 100.0 <= TargetSize
    ensures w > 0.0 && h > 0.0 && w == h ==> w * ScalePercent(w, h) / 100.0 == TargetSize
  {
    var m := Max(w, h);
    var scale := ScalePercent(w, h);
    assert m * scale / 100.0 == m * (TargetSize / m) by {
      assert scale / 100.0 == TargetSize / m;
    }
    if w > 0.0 && h > 0.0 {
      assert m > 0.0;
      assert scale / 100.0 == TargetSize / m;
      assert w * (TargetSize / m) <= m * (TargetSize / m) by {
        assert TargetSize / m > 0.0;
      }
      assert h * (TargetSize / m) <= m * (TargetSize / m) by {
        assert TargetSize / m > 0.0;
      }
    }
  }

  /** The document `convertToTGS` serialises, written as one record update; `TgsShape` states its shape. */
  function TgsOf(d: Document): (r: Document)
    requires HasRequiredFields(d)
    ensures HasRequiredFields(r)
  {
    var ip, fr := d.ip.value, d.fr.value;
    var op' := CappedOutPoint(ip, d.op.value, fr);
    var assets := if d.assets.Some? then d.assets.value else [];
    d.(op := Some(op'),
       assets := Some(assets + [PrecompAsset(WrapperCompId, d.layers)]),
       layers := [WrapperLayer(d.w.value, d.h.value, ip, op')],
       w := Some(TargetSize), h := Some(TargetSize),
       expressions := if Truthy(d.expressions) then None else d.expressions,
       markers := if Truthy(d.markers) then None else d.markers)
  }

  /**
   * The document `convertToTGS` serialises: the duration capped, the original
   * layers moved into an appended precomposition asset, one wrapper layer in
   * their place, a 512 x 512 canvas, truthy expressions and markers deleted,
   * and every other field as it was.
   */
  lemma TgsShape(d: Document)
    requires HasRequiredFields(d)
    ensures var r := TgsOf(d);
      && r.fr == d.fr && r.ip == d.ip && r.rest == d.rest
      && r.op.Some? && r.op.value - d.ip.value <= MaxSeconds * d.fr.value
      && (d.op.value - d.ip.value <= MaxSeconds * d.fr.value ==> r.op == d.op)
      && (d.op.value - d.ip.value > MaxSeconds * d.fr.value ==> r.op == Some(d.ip.value + MaxSeconds * d.fr.value))
      && r.w == Some(TargetSize) && r.h == Some(TargetSize)
      && r.layers == [WrapperLayer(d.w.value, d.h.value, d.ip.value, r.op.value)]
    ensures var r := TgsOf(d);
      var oldAssets := if d.assets.Some? then d.assets.value else [];
      && r.assets.Some? && |r.assets.value| == |oldAssets| + 1
      && r.assets.value[..|oldAssets|] == oldAssets
      && r.assets.value[|oldAssets|] == PrecompAsset(WrapperCompId, d.layers)
    ensures var r := TgsOf(d);
      && !Truthy(r.expressions) && !Truthy(r.markers)
      && (Truthy(d.expressions) ==> r.expressions.None?)
      && (Truthy(d.markers) ==> r.markers.None?)
      && (!Truthy(d.expressions) ==> r.expressions == d.expressions)
      && (!Truthy(d.markers) ==> r.markers == d.markers)
  {
  }

  /**
   * `convertToTGS` up to serialisation: the document is copied (a document is a
   * value, so the caller's document cannot change) and the copy is rewritten in
   * the order `convertToTGS` performs the steps.
   */
  method ConvertToTGS(lottieData: Document) returns (tgs: Document)
    requires HasRequiredFields(lottieData)
    ensures tgs == TgsOf(lottieData)
  {
    var newLottieData := lottieData;
    var originalW, originalH := newLottieData.w.value, newLottieData.h.value;
    var ip, fr := newLottieData.ip.value, newLottieData.fr.value;

    var maxDurationInFrames := 3.0 * fr;
    var currentDurationInFrames := newLottieData.op.value - ip;
    if currentDurationInFrames > maxDurationInFrames {
      newLottieData := newLottieData.(op := Some(ip + maxDurationInFrames));
    }

    MaxNonZero(originalW, originalH);
    var scaleFactor := 512.0 / Max(originalW, originalH);
    var precompAsset := PrecompAsset(WrapperCompId, newLottieData.layers);
    if newLottieData.assets.None? {
      newLottieData := newLottieData.(assets := Some([]));
    }
    newLottieData := newLottieData.(assets := Some(newLottieData.assets.value + [precompAsset]));

    var wrapperLayer := PrecompLayer(
      0, 1, 0, "TGS Wrapper", precompAsset.id, 1,
      Transform(Scalar(0, 100.0), Scalar(0, 0.0), Pair(0, 256.0, 256.0),
                Pair(0, originalW / 2.0, originalH / 2.0),
                Pair(0, scaleFactor * 100.0, scaleFactor * 100.0)),
      0, originalW, originalH, newLottieData.ip.value, newLottieData.op.value, newLottieData.ip.value, 0);
    newLottieData := newLottieData.(layers := [wrapperLayer]);

    newLottieData := newLottieData.(w := Some(512.0), h := Some(512.0));

    if Truthy(newLottieData.expressions) {
      newLottieData := newLottieData.(expressions := None);
    }
    if Truthy(newLottieData.markers) {
      newLottieData := newLottieData.(markers := None);
    }
    tgs := newLottieData;
  }

  /**
   * The converted document passes validation again: it reports a 512 x 512 canvas
   * and the same rounded frame rate.
   */
  lemma ConvertedDocumentReparses(name: string, d: Document)
    requires HasRequiredFields(d)
    ensures var r := ParseLottieFile(SourceFile(name, JsonMediaType, Decoded(TgsOf(d))));
      && r.Ok?
      && r.value.metadata.width == TargetSize && r.value.metadata.height == TargetSize
      && r.value.metadata.frameRate == Metadata(d).frameRate
  {
    TgsShape(d);
  }

  /**
   * The converted document's duration is the original one capped at three seconds.
   * For a negative frame rate the cap acts as a floor instead: a duration below three
   * seconds becomes three seconds.
   */
  lemma ConvertedDuration(d: Document)
    requires HasRequiredFields(d)
    ensures HasRequiredFields(TgsOf(d))
    ensures var dur, dur' := Metadata(d).duration, Metadata(TgsOf(d)).duration;
      && (d.fr.value > 0.0 ==> dur' == if dur > MaxSeconds then MaxSeconds else dur)
      && (d.fr.value < 0.0 ==> dur' == if dur < MaxSeconds then MaxSeconds else dur)
  {
    var t := TgsOf(d);
    TgsShape(d);
    var ip, op, fr := d.ip.value, d.op.value, d.fr.value;
    assert HasRequiredFields(t);
    DurationSpansTimeline(d);
    DurationSpansTimeline(t);
    var dur' := Metadata(t).duration;
    if op - ip > MaxSeconds * fr {
      assert dur' * fr == MaxSeconds * fr;
      CancelFactor(dur', MaxSeconds, fr);
    } else {
      assert t.op == d.op;
    }
  }

  /** A five-second timeline at 60 fps is cut to three seconds; a two-second one is kept. */
  lemma DurationCapExamples()
    ensures CappedOutPoint(0.0, 300.0, 60.0) == 180.0
    ensures CappedOutPoint(0.0, 120.0, 60.0) == 120.0
  {
  }

  /** A 100 x 200 canvas is anchored at (50, 100) and scaled by 512/200, that is 256 percent. */
  lemma CanvasExample()
    ensures WrapperLayer(100.0, 200.0, 0.0, 60.0).ks.a == Pair(0, 50.0, 100.0)
    ensures WrapperLayer(100.0, 200.0, 0.0, 60.0).ks.s == Pair(0, 256.0, 256.0)
  {
  }
}
