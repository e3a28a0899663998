/**
 * The Lottie document as the converter sees it: the handful of top-level fields it
 * reads or writes are typed, everything else is carried as uninterpreted JSON.
 */
module Lottie {
  import opened Wrappers

  /** A JSON value as `JSON.parse` yields it; numbers are exact reals. */
  datatype Value =
    | Null
    | Bool(b: bool)
    | Num(n: real)
    | Str(s: string)
    | Arr(items: seq<Value>)
    | Obj(members: seq<(string, Value)>)

  /** JavaScript truthiness of a JSON value (NaN is not modelled). */
  predicate TruthyValue(v: Value) {
    match v
    case Null => false
    case Bool(b) => b
    case Num(n) => n != 0.0
    case Str(s) => s != ""
    case Arr(_) => true
    case Obj(_) => true
  }

  /** `if (doc.field)` on an optional JSON field: absent is falsy. */
  predicate Truthy(field: Option<Value>) {
    field.Some? && TruthyValue(field.value)
  }

  /** `!!doc.field` on an optional numeric field: absent and zero are falsy. */
  predicate TruthyNumber(field: Option<real>) {
    field.Some? && field.value != 0.0
  }

  /** A static (non-animated) transform property `{a: 0, k: ...}` with one or two components. */
  datatype Property = Scalar(a: int, k: real) | Pair(a: int, k0: real, k1: real)

  /** A layer transform `ks`: opacity `o`, rotation `r`, position `p`, anchor `a`, scale `s`. */
  datatype Transform = Transform(o: Property, r: Property, p: Property, a: Property, s: Property)

  /**
   * A layer: either one of the document's own layers, carried verbatim, or a
   * precomposition layer (`ty: 0`) that shows the asset whose id is `refId`.
   */
  datatype Layer =
    | RawLayer(body: Value)
    | PrecompLayer(ddd: int, ind: int, ty: int, nm: string, refId: string, sr: int,
                   ks: Transform, ao: int, w: real, h: real,
                   ip: real, op: real, st: real, bm: int)

  /** An asset: one of the document's own assets, carried verbatim, or a precomposition. */
  datatype Asset =
    | RawAsset(body: Value)
    | PrecompAsset(id: string, layers: seq<Layer>)

  /**
   * A Lottie document: canvas size `w` x `h`, frame rate `fr`, in-point `ip` and
   * out-point `op` (each possibly absent), the layers, the optional assets, the
   * optional `expressions` and `markers` fields, and every other top-level field.
   */
  datatype Document = Document(
    w: Option<real>,
    h: Option<real>,
    fr: Option<real>,
    ip: Option<real>,
    op: Option<real>,
    layers: seq<Layer>,
    assets: Option<seq<Asset>>,
    expressions: Option<Value>,
    markers: Option<Value>,
    rest: map<string, Value>)
}
