/**
 token and from_token of shared/fft_params.h: the words a description is printed
 as, and how a list of words is parsed.
 */
module Tokens {
  import opened Arith
  import opened Options
  import opened Problems
  import opened Strings

  // --------------------------------------------------------------- printing

  function TransformWords(t: TransformType): seq<string> {
    match t
    case ComplexForward => ["complex", "forward"]
    case ComplexInverse => ["complex", "inverse"]
    case RealForward => ["real", "forward"]
    case RealInverse => ["real", "inverse"]
  }

  function PrecisionWord(p: Precision): string {
    match p
    case Half => "half"
    case Single => "single"
    case Double => "double"
  }

  function PlacementWord(p: Placement): string {
    if p == InPlace then "ip" else "op"
  }

  function TypeWord(t: ArrayType): string {
    match t
    case ComplexInterleaved => "CI"
    case ComplexPlanar => "CP"
    case RealArray => "R"
    case HermitianInterleaved => "HI"
    case HermitianPlanar => "HP"
    case Unset => "UN"
  }

  function Numbers(v: seq<nat>): (w: seq<string>)
    ensures |w| == |v|
  {
    seq(|v|, i requires 0 <= i < |v| => Decimal(v[i]))
  }

  function BrickWords(b: Brick): seq<string> {
    ["brick", "lower"] + Numbers(b.lower) + ["upper"] + Numbers(b.upper) + ["stride"] + Numbers(b.stride)
    + (if b.rank != 0 then ["rank", SignedDecimal(b.rank)] else [])
    + ["dev", SignedDecimal(b.device)]
  }

  function BricksWords(bricks: seq<Brick>): seq<string> {
    if bricks == [] then [] else BrickWords(bricks[0]) + BricksWords(bricks[1..])
  }

  lemma {:induction false} BricksWordsSnoc(bricks: seq<Brick>, b: Brick)
    ensures BricksWords(bricks + [b]) == BricksWords(bricks) + BrickWords(b)
  {
    if bricks == [] {
      assert BricksWords([b]) == BrickWords(b) + [];
    } else {
      assert (bricks + [b])[1..] == bricks[1..] + [b];
      BricksWordsSnoc(bricks[1..], b);
      assert BrickWords(bricks[0]) + (BricksWords(bricks[1..]) + BrickWords(b))
          == BrickWords(bricks[0]) + BricksWords(bricks[1..]) + BrickWords(b);
    }
  }

  /** The parts of a token between the batch count and the flags. */
  datatype Section =
    | InStride(v: seq<nat>, t: ArrayType) | OutStride(v: seq<nat>, t: ArrayType)
    | InDist(n: nat) | OutDist(n: nat)
    | InOffset(v: seq<nat>) | OutOffset(v: seq<nat>)
    | InField(f: Field) | OutField(f: Field)

  function Key(s: Section): string {
    match s
    case InStride(_, _) => "istride"
    case OutStride(_, _) => "ostride"
    case InDist(_) => "idist"
    case OutDist(_) => "odist"
    case InOffset(_) => "ioffset"
    case OutOffset(_) => "ooffset"
    case InField(_) => "ifield"
    case OutField(_) => "ofield"
  }

  /** The words of a section after its keyword. */
  function Body(s: Section): seq<string> {
    match s
    case InStride(v, t) => Numbers(v) + [TypeWord(t)]
    case OutStride(v, t) => Numbers(v) + [TypeWord(t)]
    case InDist(n) => [Decimal(n)]
    case OutDist(n) => [Decimal(n)]
    case InOffset(v) => Numbers(v)
    case OutOffset(v) => Numbers(v)
    case InField(f) => BricksWords(f.bricks)
    case OutField(f) => BricksWords(f.bricks)
  }

  function SectionWords(s: Section): (w: seq<string>)
    ensures w != []
  {
    [Key(s)] + Body(s)
  }

  function InFields(fields: seq<Field>): seq<Section> {
    seq(|fields|, i requires 0 <= i < |fields| => InField(fields[i]))
  }

  function OutFields(fields: seq<Field>): seq<Section> {
    seq(|fields|, i requires 0 <= i < |fields| => OutField(fields[i]))
  }

  function InSections(p: Params): seq<Section> {
    if p.ifields != [] then InFields(p.ifields) else [InStride(p.istride, p.itype)]
  }

  function OutSections(p: Params): seq<Section> {
    if p.ofields != [] then OutFields(p.ofields) else [OutStride(p.ostride, p.otype)]
  }

  /** Distances, then offsets. */
  function Scalars(p: Params): seq<Section> {
    (if p.ifields != [] then [] else [InDist(p.idist)])
    + (if p.ofields != [] then [] else [OutDist(p.odist)])
    + (if p.ifields != [] then [] else [InOffset(p.ioffset)])
    + (if p.ofields != [] then [] else [OutOffset(p.ooffset)])
  }

  /** Strides, distances and offsets are printed only for a side without fields. */
  function Sections(p: Params): seq<Section> {
    InSections(p) + (OutSections(p) + Scalars(p))
  }

  function SectionsWords(ss: seq<Section>): seq<string> {
    if ss == [] then [] else SectionWords(ss[0]) + SectionsWords(ss[1..])
  }

  lemma {:induction false} SectionsWordsConcat(a: seq<Section>, b: seq<Section>)
    ensures SectionsWords(a + b) == SectionsWords(a) + SectionsWords(b)
  {
    if a == [] {
      assert a + b == b;
    } else {
      assert (a + b)[1..] == a[1..] + b;
      SectionsWordsConcat(a[1..], b);
    }
  }

  lemma SectionsWordsSnoc(ss: seq<Section>, s: Section)
    ensures SectionsWords(ss + [s]) == SectionsWords(ss) + SectionWords(s)
  {
    SectionsWordsConcat(ss, [s]);
    assert SectionsWords([s]) == SectionWords(s) + [];
  }

  function HeaderWords(p: Params): seq<string> {
    TransformWords(p.transformType) + ["len"] + Numbers(p.length)
    + [PrecisionWord(p.precision), PlacementWord(p.placement), "batch", Decimal(p.nbatch)]
  }

  lemma HeaderParts(p: Params)
    ensures HeaderWords(p) == TransformWords(p.transformType)
            + (["len"] + Numbers(p.length) + [PrecisionWord(p.precision)] + [PlacementWord(p.placement)]
               + (["batch"] + [Decimal(p.nbatch)]))
  {
  }

  function FlagWords(p: Params): seq<string> {
    (if p.runCallbacks then ["CB"] else [])
    + (if p.scaleFactor != 1.0 then ["scale"] else [])
    + (if p.multiGpu > 1 then ["multigpu", Decimal(p.multiGpu)] else [])
  }

  function Words(p: Params): (w: seq<string>)
    ensures w != []
  {
    HeaderWords(p) + (SectionsWords(Sections(p)) + FlagWords(p))
  }

  /** The printed token. */
  function Token(p: Params): string {
    Join(Words(p))
  }

  // ---------------------------------------------------------------- parsing

  /** What a parser took from a list of words, and the words it left. */
  datatype Taken<T> = Fail | Got(value: T, rest: seq<string>)

  function TakeNumbers(w: seq<string>): (r: Taken<seq<nat>>)
    ensures r.Got? ==> |r.rest| <= |w|
  {
    if w == [] || !AllDigits(w[0]) then Got([], w)
    else
      var n := Stoull(w[0]);
      if n == None then Fail
      else match TakeNumbers(w[1..])
        case Fail => Fail
        case Got(v, rest) => Got([n.value] + v, rest)
  }

  /** vector_parser. */
  function TakeVector(key: string, w: seq<string>): (r: Taken<seq<nat>>)
    ensures r.Got? ==> |r.rest| < |w|
  {
    if w == [] || w[0] != key then Fail else TakeNumbers(w[1..])
  }

  /** size_parser. */
  function TakeSize(key: string, w: seq<string>): (r: Taken<nat>)
    ensures r.Got? ==> |r.rest| < |w| && r.value < TWO64
  {
    if |w| < 2 || w[0] != key || Stoull(w[1]) == None then Fail else Got(Stoull(w[1]).value, w[2..])
  }

  function TypeOf(word: string): ArrayType {
    if word == "CI" then ComplexInterleaved
    else if word == "CP" then ComplexPlanar
    else if word == "R" then RealArray
    else if word == "HI" then HermitianInterleaved
    else if word == "HP" then HermitianPlanar
    else Unset
  }

  /** A vector and the type word that must follow it. */
  function TakeTyped(key: string, w: seq<string>): (r: Taken<(seq<nat>, ArrayType)>)
    ensures r.Got? ==> |r.rest| < |w|
  {
    match TakeVector(key, w)
    case Fail => Fail
    case Got(v, rest) => if rest == [] then Fail else Got((v, TypeOf(rest[0])), rest[1..])
  }

  /** The rank, when there is one. */
  function TakeRank(w: seq<string>): (r: Taken<int>)
    ensures r.Got? ==> |r.rest| <= |w|
  {
    if w == [] then Fail
    else if w[0] != "rank" then Got(0, w)
    else match TakeSize("rank", w)
      case Fail => Fail
      case Got(n, rest) => Got(Narrow(n), rest)
  }

  /** One brick, after its first word. */
  function TakeBrick(w: seq<string>): (r: Taken<Brick>)
    ensures r.Got? ==> |r.rest| < |w|
  {
    match TakeVector("lower", w)
    case Fail => Fail
    case Got(lower, w1) =>
      match TakeVector("upper", w1)
      case Fail => Fail
      case Got(upper, w2) =>
        match TakeVector("stride", w2)
        case Fail => Fail
        case Got(stride, w3) =>
          match TakeRank(w3)
          case Fail => Fail
          case Got(rank, w4) =>
            match TakeSize("dev", w4)
            case Fail => Fail
            case Got(device, w5) => Got(Brick(lower, upper, stride, rank, Narrow(device)), w5)
  }

  function TakeBricks(w: seq<string>): (r: Taken<seq<Brick>>)
    ensures r.Got? ==> |r.rest| <= |w|
    decreases |w|
  {
    if w == [] || w[0] != "brick" then Got([], w)
    else match TakeBrick(w[1..])
      case Fail => Fail
      case Got(b, rest) =>
        match TakeBricks(rest)
        case Fail => Fail
        case Got(bs, rest') => Got([b] + bs, rest')
  }

  /** field_parser, at a word that is skipped. */
  function TakeField(w: seq<string>): (r: Taken<Field>)
    requires w != []
    ensures r.Got? ==> |r.rest| < |w|
  {
    match TakeBricks(w[1..])
    case Fail => Fail
    case Got(bricks, rest) => Got(Field(bricks), rest)
  }

  /** A section, by its first word. */
  function TakeSection(w: seq<string>): (r: Taken<Section>)
    requires w != []
    ensures r.Got? ==> |r.rest| < |w|
  {
    if w[0] == "istride" then
      match TakeTyped("istride", w) case Fail => Fail case Got(vt, rest) => Got(InStride(vt.0, vt.1), rest)
    else if w[0] == "ostride" then
      match TakeTyped("ostride", w) case Fail => Fail case Got(vt, rest) => Got(OutStride(vt.0, vt.1), rest)
    else if w[0] == "idist" then
      match TakeSize("idist", w) case Fail => Fail case Got(n, rest) => Got(InDist(n), rest)
    else if w[0] == "odist" then
      match TakeSize("odist", w) case Fail => Fail case Got(n, rest) => Got(OutDist(n), rest)
    else if w[0] == "ioffset" then
      match TakeVector("ioffset", w) case Fail => Fail case Got(v, rest) => Got(InOffset(v), rest)
    else if w[0] == "ooffset" then
      match TakeVector("ooffset", w) case Fail => Fail case Got(v, rest) => Got(OutOffset(v), rest)
    else if w[0] == "ifield" then
      match TakeField(w) case Fail => Fail case Got(f, rest) => Got(InField(f), rest)
    else if w[0] == "ofield" then
      match TakeField(w) case Fail => Fail case Got(f, rest) => Got(OutField(f), rest)
    else Fail
  }

  predicate StartsSection(word: string) {
    || word == "istride" || word == "ostride" || word == "idist" || word == "odist"
    || word == "ioffset" || word == "ooffset" || word == "ifield" || word == "ofield"
  }

  /** What a section sets. */
  function Effect(s: Section, q: Params): Params {
    match s
    case InStride(v, t) => q.(istride := v, itype := t)
    case OutStride(v, t) => q.(ostride := v, otype := t)
    case InDist(n) => q.(idist := n)
    case OutDist(n) => q.(odist := n)
    case InOffset(v) => q.(ioffset := v)
    case OutOffset(v) => q.(ooffset := v)
    case InField(f) => q.(ifields := q.ifields + [f])
    case OutField(f) => q.(ofields := q.ofields + [f])
  }

  /** The loop over sections; it never looks at the last word. */
  function TakeSections(w: seq<string>, q: Params): (r: Taken<Params>)
    ensures r.Got? ==> |r.rest| <= |w|
    decreases |w|
  {
    if |w| <= 1 || !StartsSection(w[0]) then Got(q, w)
    else match TakeSection(w)
      case Fail => Fail
      case Got(s, rest) => TakeSections(rest, Effect(s, q))
  }

  function TransformOf(complex: bool, forward: bool): TransformType {
    if complex then (if forward then ComplexForward else ComplexInverse)
    else (if forward then RealForward else RealInverse)
  }

  function PrecisionOf(word: string, current: Precision): Precision {
    if word == "half" then Half
    else if word == "single" then Single
    else if word == "double" then Double
    else current
  }

  function TakeHeader(w: seq<string>, q: Params): (r: Taken<Params>)
    ensures r.Got? ==> |r.rest| < |w|
  {
    if |w| < 2 then Fail
    else match TakeVector("len", w[2..])
      case Fail => Fail
      case Got(length, w1) =>
        if |w1| < 2 then Fail
        else match TakeSize("batch", w1[2..])
          case Fail => Fail
          case Got(nbatch, rest) =>
            Got(q.(transformType := TransformOf(w[0] == "complex", w[1] == "forward"), length := length,
                   precision := PrecisionOf(w1[0], q.precision),
                   placement := if w1[1] == "ip" then InPlace else NotInPlace, nbatch := nbatch), rest)
  }

  function TakeCallback(w: seq<string>, q: Params): Taken<Params> {
    if w != [] && w[0] == "CB" then Got(q.(runCallbacks := true), w[1..]) else Got(q, w)
  }

  function TakeScale(w: seq<string>, q: Params): Taken<Params> {
    if w != [] && w[0] == "scale" then Got(q.(scaleFactor := 0.1239), w[1..]) else Got(q, w)
  }

  function TakeMultiGpu(w: seq<string>, q: Params): Option<Params> {
    if w == [] || w[0] != "multiGPU" then Some(q)
    else match TakeSize("multiGPU", w)
      case Fail => None
      case Got(n, _) => Some(q.(multiGpu := n))
  }

  function TakeFlags(w: seq<string>, q: Params): Option<Params> {
    var cb := TakeCallback(w, q);
    var scale := TakeScale(cb.rest, cb.value);
    TakeMultiGpu(scale.rest, scale.value)
  }

  /** from_token applied to `q`; nothing when the parser throws or runs off the words. */
  function Parsed(w: seq<string>, q: Params): Option<Params> {
    match TakeHeader(w, q)
    case Fail => None
    case Got(q1, w1) =>
      match TakeSections(w1, q1)
      case Fail => None
      case Got(q2, w2) => TakeFlags(w2, q2)
  }

  function FromToken(token: string, q: Params): Option<Params> {
    Parsed(Split(token), q)
  }
}
