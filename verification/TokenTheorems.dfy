/**
 What survives printing a description and parsing the token: the round trip of
 token and from_token, and exactly when it is faithful.
 */
module TokenTheorems {
  import opened Arith
  import opened Options
  import opened Problems
  import opened Strings
  import opened Tokens

  /** Every printed number fits its type: size_t, or int for ranks and devices. */
  ghost predicate Machine(p: Params) {
    && Fits(p.length) && Fits(p.istride) && Fits(p.ostride) && Fits(p.ioffset) && Fits(p.ooffset)
    && p.nbatch < TWO64 && p.idist < TWO64 && p.odist < TWO64
    && (forall i :: 0 <= i < |p.ifields| ==> FieldFits(p.ifields[i]))
    && (forall i :: 0 <= i < |p.ofields| ==> FieldFits(p.ofields[i]))
  }

  ghost predicate Fits(v: seq<nat>) {
    forall i :: 0 <= i < |v| ==> v[i] < TWO64
  }

  ghost predicate BrickFits(b: Brick) {
    && Fits(b.lower) && Fits(b.upper) && Fits(b.stride)
    && -0x8000_0000 <= b.rank < 0x8000_0000 && -0x8000_0000 <= b.device < 0x8000_0000
  }

  ghost predicate FieldFits(f: Field) {
    forall i :: 0 <= i < |f.bricks| ==> BrickFits(f.bricks[i])
  }

  ghost predicate SectionFits(s: Section) {
    match s
    case InStride(v, _) => Fits(v)
    case OutStride(v, _) => Fits(v)
    case InDist(n) => n < TWO64
    case OutDist(n) => n < TWO64
    case InOffset(v) => Fits(v)
    case OutOffset(v) => Fits(v)
    case InField(f) => FieldFits(f)
    case OutField(f) => FieldFits(f)
  }

  // ------------------------------------------------------ parsing one section

  /** The words left do not continue a list of numbers or bricks. */
  predicate Plain(w: seq<string>) {
    w == [] || (!AllDigits(w[0]) && w[0] != "brick")
  }

  lemma {:induction false} TakeNumbersOf(v: seq<nat>, rest: seq<string>)
    requires Fits(v) && (rest == [] || !AllDigits(rest[0]))
    ensures TakeNumbers(Numbers(v) + rest) == Got(v, rest)
  {
    var w := Numbers(v) + rest;
    if v == [] {
      assert w == rest;
    } else {
      StoullOfDecimal(v[0]);
      assert w[1..] == Numbers(v[1..]) + rest;
      TakeNumbersOf(v[1..], rest);
      assert v == [v[0]] + v[1..];
    }
  }

  lemma TakeVectorOf(key: string, v: seq<nat>, rest: seq<string>)
    requires Fits(v) && (rest == [] || !AllDigits(rest[0]))
    ensures TakeVector(key, [key] + Numbers(v) + rest) == Got(v, rest)
  {
    assert ([key] + Numbers(v) + rest)[1..] == Numbers(v) + rest;
    TakeNumbersOf(v, rest);
  }

  lemma TakeSizeOf(key: string, n: nat, rest: seq<string>)
    requires n < TWO64
    ensures TakeSize(key, [key] + [Decimal(n)] + rest) == Got(n, rest)
  {
    StoullOfDecimal(n);
    assert ([key] + [Decimal(n)] + rest)[2..] == rest;
  }

  lemma TakeIntOf(key: string, n: int, rest: seq<string>)
    requires -0x8000_0000 <= n < 0x8000_0000
    ensures var r := TakeSize(key, [key, SignedDecimal(n)] + rest);
            r.Got? && Narrow(r.value) == n && r.rest == rest
  {
    StoullOfSignedDecimal(n);
    assert ([key, SignedDecimal(n)] + rest)[2..] == rest;
  }

  function RankWords(b: Brick): seq<string> {
    if b.rank != 0 then ["rank", SignedDecimal(b.rank)] else []
  }

  function OwnerWords(b: Brick): seq<string> {
    RankWords(b) + ["dev", SignedDecimal(b.device)]
  }

  lemma KeysAreWords()
    ensures !AllDigits("upper") && !AllDigits("stride") && !AllDigits("rank") && !AllDigits("dev") && "dev" != "rank"
  {
    assert !IsDigit("upper"[0]) && !IsDigit("stride"[0]) && !IsDigit("rank"[0]) && !IsDigit("dev"[0]);
  }

  lemma TakeRankOf(b: Brick, rest: seq<string>)
    requires BrickFits(b)
    ensures TakeRank(OwnerWords(b) + rest) == Got(b.rank, ["dev", SignedDecimal(b.device)] + rest)
  {
    var after := ["dev", SignedDecimal(b.device)] + rest;
    assert OwnerWords(b) + rest == RankWords(b) + after;
    if b.rank != 0 {
      TakeIntOf("rank", b.rank, after);
    } else {
      assert RankWords(b) + after == after;
      KeysAreWords();
    }
  }

  /** A brick is taken field by field. */
  lemma TakeFieldsOfBrick(b: Brick, device: nat, w: seq<string>, w1: seq<string>, w2: seq<string>, w3: seq<string>,
                          w4: seq<string>, rest: seq<string>)
    requires TakeVector("lower", w) == Got(b.lower, w1) && TakeVector("upper", w1) == Got(b.upper, w2)
    requires TakeVector("stride", w2) == Got(b.stride, w3) && TakeRank(w3) == Got(b.rank, w4)
    requires TakeSize("dev", w4) == Got(device, rest) && Narrow(device) == b.device
    ensures TakeBrick(w) == Got(b, rest)
  {
    hide TakeVector, TakeSize, TakeRank;
  }

  lemma TakeDeviceOf(b: Brick, rest: seq<string>) returns (device: nat)
    requires BrickFits(b)
    ensures TakeSize("dev", ["dev", SignedDecimal(b.device)] + rest) == Got(device, rest) && Narrow(device) == b.device
  {
    TakeIntOf("dev", b.device, rest);
    device := TakeSize("dev", ["dev", SignedDecimal(b.device)] + rest).value;
  }

  lemma VectorWordsOf(b: Brick, rest: seq<string>)
    ensures BrickWords(b) != [] && BrickWords(b)[0] == "brick"
    ensures (BrickWords(b) + rest)[1..] == ["lower"] + Numbers(b.lower)
            + (["upper"] + Numbers(b.upper) + (["stride"] + Numbers(b.stride) + (OwnerWords(b) + rest)))
  {
    hide Numbers;
  }

  lemma TakeBrickOf(b: Brick, rest: seq<string>)
    requires BrickFits(b)
    ensures BrickWords(b) != [] && (BrickWords(b) + rest)[0] == "brick"
    ensures TakeBrick((BrickWords(b) + rest)[1..]) == Got(b, rest)
  {
    hide TakeBrick, TakeVector, TakeSize, TakeRank, BrickWords, OwnerWords;
    var w4 := ["dev", SignedDecimal(b.device)] + rest;
    var w3 := OwnerWords(b) + rest;
    var w2 := ["stride"] + Numbers(b.stride) + w3;
    var w1 := ["upper"] + Numbers(b.upper) + w2;
    var w := ["lower"] + Numbers(b.lower) + w1;
    VectorWordsOf(b, rest);
    KeysAreWords();
    TakeVectorOf("lower", b.lower, w1);
    TakeVectorOf("upper", b.upper, w2);
    OwnerIsWord(b, rest);
    TakeVectorOf("stride", b.stride, w3);
    TakeRankOf(b, rest);
    var device := TakeDeviceOf(b, rest);
    TakeFieldsOfBrick(b, device, w, w1, w2, w3, w4, rest);
  }

  lemma OwnerIsWord(b: Brick, rest: seq<string>)
    ensures OwnerWords(b) != [] && !AllDigits((OwnerWords(b) + rest)[0])
  {
    KeysAreWords();
  }

  lemma {:induction false} TakeBricksOf(bricks: seq<Brick>, rest: seq<string>)
    requires FieldFits(Field(bricks)) && Plain(rest)
    ensures TakeBricks(BricksWords(bricks) + rest) == Got(bricks, rest)
  {
    if bricks == [] {
      assert BricksWords(bricks) + rest == rest;
    } else {
      assert FieldFits(Field(bricks[1..]));
      TakeBricksOf(bricks[1..], rest);
      TakeFirstBrick(bricks, rest);
    }
  }

  lemma OneMoreBrick(w: seq<string>, b: Brick, after: seq<string>, bs: seq<Brick>, rest: seq<string>)
    requires w != [] && w[0] == "brick" && TakeBrick(w[1..]) == Got(b, after) && TakeBricks(after) == Got(bs, rest)
    ensures TakeBricks(w) == Got([b] + bs, rest)
  {
  }

  lemma TakeFirstBrick(bricks: seq<Brick>, rest: seq<string>)
    requires bricks != [] && FieldFits(Field(bricks))
    requires TakeBricks(BricksWords(bricks[1..]) + rest) == Got(bricks[1..], rest)
    ensures TakeBricks(BricksWords(bricks) + rest) == Got(bricks, rest)
  {
    hide TakeBrick, TakeBricks, BrickWords, BrickFits;
    var after := BricksWords(bricks[1..]) + rest;
    var w := BrickWords(bricks[0]) + after;
    assert BricksWords(bricks) + rest == w;
    TakeBrickOf(bricks[0], after);
    OneMoreBrick(w, bricks[0], after, bricks[1..], rest);
    assert bricks == [bricks[0]] + bricks[1..];
  }

  lemma TakeTypedOf(key: string, v: seq<nat>, t: ArrayType, rest: seq<string>)
    requires Fits(v)
    ensures TakeTyped(key, [key] + (Numbers(v) + [TypeWord(t)]) + rest) == Got((v, t), rest)
  {
    assert !IsDigit(TypeWord(t)[0]);
    assert TypeOf(TypeWord(t)) == t;
    assert [key] + (Numbers(v) + [TypeWord(t)]) + rest == [key] + Numbers(v) + ([TypeWord(t)] + rest);
    TakeVectorOf(key, v, [TypeWord(t)] + rest);
  }

  lemma TakeFieldOf(key: string, f: Field, rest: seq<string>)
    requires FieldFits(f) && Plain(rest)
    ensures TakeField([key] + BricksWords(f.bricks) + rest) == Got(f, rest)
  {
    assert ([key] + BricksWords(f.bricks) + rest)[1..] == BricksWords(f.bricks) + rest;
    TakeBricksOf(f.bricks, rest);
  }

  lemma TakeSectionOf(s: Section, rest: seq<string>)
    requires SectionFits(s) && Plain(rest)
    ensures TakeSection(SectionWords(s) + rest) == Got(s, rest)
    ensures StartsSection(SectionWords(s)[0]) && Plain(SectionWords(s))
  {
    hide TakeTyped, TakeSize, TakeVector, TakeField;
    assert !IsDigit(SectionWords(s)[0][0]);
    match s
    case InStride(v, t) => TakeTypedOf("istride", v, t, rest);
    case OutStride(v, t) => TakeTypedOf("ostride", v, t, rest);
    case InDist(n) => TakeSizeOf("idist", n, rest);
    case OutDist(n) => TakeSizeOf("odist", n, rest);
    case InOffset(v) => TakeVectorOf("ioffset", v, rest);
    case OutOffset(v) => TakeVectorOf("ooffset", v, rest);
    case InField(f) => TakeFieldOf("ifield", f, rest);
    case OutField(f) => TakeFieldOf("ofield", f, rest);
  }

  // ------------------------------------------------------- parsing a section list

  function Effects(ss: seq<Section>, q: Params): Params {
    if ss == [] then q else Effects(ss[1..], Effect(ss[0], q))
  }

  /** The section loop stops here. */
  predicate Stops(tail: seq<string>) {
    |tail| <= 1 || !StartsSection(tail[0])
  }

  /** All sections are taken unless the last one's keyword is the very last word. */
  lemma {:induction false} TakeSectionsOf(ss: seq<Section>, tail: seq<string>, q: Params)
    requires forall i :: 0 <= i < |ss| ==> SectionFits(ss[i])
    requires Plain(tail) && Stops(tail)
    requires tail == [] && ss != [] ==> |SectionWords(ss[|ss| - 1])| > 1
    ensures TakeSections(SectionsWords(ss) + tail, q) == Got(Effects(ss, q), tail)
  {
    if ss == [] {
      assert SectionsWords(ss) + tail == tail;
    } else {
      TakeSectionsOf(ss[1..], tail, Effect(ss[0], q));
      TakeFirstSection(ss, tail, q);
    }
  }

  lemma TakeFirstSection(ss: seq<Section>, tail: seq<string>, q: Params)
    requires ss != [] && forall i :: 0 <= i < |ss| ==> SectionFits(ss[i])
    requires Plain(tail) && (tail == [] ==> |SectionWords(ss[|ss| - 1])| > 1)
    ensures TakeSections(SectionsWords(ss) + tail, q) == TakeSections(SectionsWords(ss[1..]) + tail, Effect(ss[0], q))
  {
    hide SectionWords, TakeSection, Effect, SectionFits;
    var rest := SectionsWords(ss[1..]) + tail;
    assert SectionsWords(ss) + tail == SectionWords(ss[0]) + rest;
    if |ss| > 1 {
      TakeSectionOf(ss[1], []);
      assert rest[0] == SectionWords(ss[1])[0];
    } else {
      assert rest == tail;
    }
    TakeSectionOf(ss[0], rest);
  }

  // ------------------------------------------------------------ header and flags

  lemma TakeHeaderOf(p: Params, rest: seq<string>, q: Params)
    requires Machine(p)
    ensures TakeHeader(HeaderWords(p) + rest, q) ==
            Got(q.(transformType := p.transformType, length := p.length, precision := p.precision,
                   placement := p.placement, nbatch := p.nbatch), rest)
  {
    var w := HeaderWords(p) + rest;
    var w2 := ["batch"] + [Decimal(p.nbatch)] + rest;
    var w1 := [PrecisionWord(p.precision), PlacementWord(p.placement)] + w2;
    hide TakeVector, TakeSize, HeaderWords;
    HeaderShape(p, rest, w1);
    assert !IsDigit(PrecisionWord(p.precision)[0]);
    TakeVectorOf("len", p.length, w1);
    assert w1[2..] == w2;
    TakeSizeOf("batch", p.nbatch, rest);
    HeaderWordsAreRead(p);
  }

  lemma HeaderShape(p: Params, rest: seq<string>, w1: seq<string>)
    requires w1 == [PrecisionWord(p.precision), PlacementWord(p.placement)] + (["batch"] + [Decimal(p.nbatch)] + rest)
    ensures var w, t := HeaderWords(p) + rest, TransformWords(p.transformType);
      && |w| >= 2 && |t| == 2 && w[0] == t[0] && w[1] == t[1] && w[2..] == ["len"] + Numbers(p.length) + w1
  {
    assert HeaderWords(p) + rest == TransformWords(p.transformType) + (["len"] + Numbers(p.length) + w1);
  }

  lemma HeaderWordsAreRead(p: Params)
    ensures var t := TransformWords(p.transformType);
            TransformOf(t[0] == "complex", t[1] == "forward") == p.transformType
    ensures forall c :: PrecisionOf(PrecisionWord(p.precision), c) == p.precision
    ensures PlacementWord(p.placement) == "ip" <==> p.placement == InPlace
  {
    assert "real" != "complex" && "op"[0] != "ip"[0] && "inverse"[0] != "forward"[0];
    assert "single"[0] != "double"[0];
  }

  /** The flags but the GPU count, whose printed word is not the parsed one. */
  lemma TakeFlagsOf(p: Params, q: Params)
    ensures TakeFlags(FlagWords(p), q) == Some(q.(runCallbacks := q.runCallbacks || p.runCallbacks,
              scaleFactor := if p.scaleFactor != 1.0 then 0.1239 else q.scaleFactor))
  {
    var multi := if p.multiGpu > 1 then ["multigpu", Decimal(p.multiGpu)] else [];
    var scale := if p.scaleFactor != 1.0 then ["scale"] else [];
    assert "multigpu"[5] != "multiGPU"[5];
    assert FlagWords(p) == (if p.runCallbacks then ["CB"] else []) + (scale + multi);
    assert TakeCallback(FlagWords(p), q).rest == scale + multi;
    assert (scale + multi)[|scale|..] == multi;
  }

  // ------------------------------------------------------------- clean words

  ghost predicate AllClean(w: seq<string>) {
    forall i :: 0 <= i < |w| ==> Clean(w[i])
  }

  lemma NumbersAreClean(v: seq<nat>)
    ensures AllClean(Numbers(v))
  {
    forall i | 0 <= i < |v| ensures Clean(Numbers(v)[i]) {
      assert AllDigits(Decimal(v[i]));
    }
  }

  lemma SignedIsClean(n: int)
    ensures Clean(SignedDecimal(n))
  {
    assert AllDigits(Decimal(if n < 0 then -n else n));
  }

  lemma BrickIsClean(b: Brick)
    ensures AllClean(BrickWords(b))
  {
    NumbersAreClean(b.lower);
    NumbersAreClean(b.upper);
    NumbersAreClean(b.stride);
    SignedIsClean(b.rank);
    SignedIsClean(b.device);
  }

  lemma {:induction false} BricksAreClean(bricks: seq<Brick>)
    ensures AllClean(BricksWords(bricks))
  {
    if bricks != [] {
      BrickIsClean(bricks[0]);
      BricksAreClean(bricks[1..]);
    }
  }

  lemma TypedIsClean(v: seq<nat>, t: ArrayType)
    ensures AllClean(Numbers(v) + [TypeWord(t)])
  {
    NumbersAreClean(v);
  }

  lemma BodyIsClean(s: Section)
    ensures AllClean(Body(s))
  {
    hide Clean;
    match s
    case InStride(v, t) => TypedIsClean(v, t);
    case OutStride(v, t) => TypedIsClean(v, t);
    case InDist(n) => SignedIsClean(n);
    case OutDist(n) => SignedIsClean(n);
    case InOffset(v) => NumbersAreClean(v);
    case OutOffset(v) => NumbersAreClean(v);
    case InField(f) => BricksAreClean(f.bricks);
    case OutField(f) => BricksAreClean(f.bricks);
  }

  lemma SectionIsClean(s: Section)
    ensures AllClean(SectionWords(s))
  {
    BodyIsClean(s);
  }

  lemma {:induction false} SectionsAreClean(ss: seq<Section>)
    ensures AllClean(SectionsWords(ss))
  {
    if ss != [] {
      SectionIsClean(ss[0]);
      SectionsAreClean(ss[1..]);
    }
  }

  lemma HeaderIsClean(p: Params)
    ensures AllClean(HeaderWords(p))
  {
    NumbersAreClean(p.length);
    SignedIsClean(p.nbatch);
  }

  lemma FlagsAreClean(p: Params)
    ensures AllClean(FlagWords(p))
  {
    SignedIsClean(p.multiGpu);
  }

  /** No printed word contains the separator, so the token splits into its words. */
  lemma TokenSplits(p: Params)
    ensures Split(Token(p)) == Words(p)
  {
    HeaderIsClean(p);
    FlagsAreClean(p);
    SectionsAreClean(Sections(p));
    SplitJoin(Words(p));
  }

  // ------------------------------------------------------------ section effects

  lemma {:induction false} EffectsConcat(a: seq<Section>, b: seq<Section>, q: Params)
    ensures Effects(a + b, q) == Effects(b, Effects(a, q))
  {
    if a == [] {
      assert a + b == b;
    } else {
      assert (a + b)[1..] == a[1..] + b;
      EffectsConcat(a[1..], b, Effect(a[0], q));
    }
  }

  lemma {:induction false} EffectsInFields(fields: seq<Field>, q: Params)
    ensures Effects(InFields(fields), q) == q.(ifields := q.ifields + fields)
  {
    if fields == [] {
      assert q.ifields + fields == q.ifields;
    } else {
      assert InFields(fields)[1..] == InFields(fields[1..]);
      EffectsInFields(fields[1..], q.(ifields := q.ifields + [fields[0]]));
      assert q.ifields + [fields[0]] + fields[1..] == q.ifields + fields;
    }
  }

  lemma {:induction false} EffectsOutFields(fields: seq<Field>, q: Params)
    ensures Effects(OutFields(fields), q) == q.(ofields := q.ofields + fields)
  {
    if fields == [] {
      assert q.ofields + fields == q.ofields;
    } else {
      assert OutFields(fields)[1..] == OutFields(fields[1..]);
      EffectsOutFields(fields[1..], q.(ofields := q.ofields + [fields[0]]));
      assert q.ofields + [fields[0]] + fields[1..] == q.ofields + fields;
    }
  }

  /** A fresh description with the header of `p`. */
  function WithHeader(p: Params): Params {
    Fresh().(transformType := p.transformType, length := p.length, precision := p.precision,
             placement := p.placement, nbatch := p.nbatch)
  }

  /** The printed input fields of `p` put into `q`. */
  function WithInput(p: Params, q: Params): Params {
    if p.ifields != [] then q.(ifields := p.ifields)
    else q.(istride := p.istride, itype := p.itype, idist := p.idist, ioffset := p.ioffset)
  }

  function WithOutput(p: Params, q: Params): Params {
    if p.ofields != [] then q.(ofields := p.ofields)
    else q.(ostride := p.ostride, otype := p.otype, odist := p.odist, ooffset := p.ooffset)
  }

  /** The fields a token is printed from, and fresh values for all others. */
  function Normal(p: Params): Params {
    WithOutput(p, WithInput(p, WithHeader(p))).(
      runCallbacks := p.runCallbacks, scaleFactor := if p.scaleFactor != 1.0 then 0.1239 else 1.0,
      multiGpu := if p.multiGpu > 1 then p.multiGpu else 0)
  }

  /** Printing looks at no other field. */
  lemma PrintedFromNormal(p: Params)
    ensures Words(Normal(p)) == Words(p)
  {
    assert Sections(Normal(p)) == Sections(p);
  }

  lemma EffectsOne(s: Section, q: Params)
    ensures Effects([s], q) == Effect(s, q)
  {
    assert Effects([s], q) == Effects([s][1..], Effect(s, q));
  }

  lemma ScalarEffects(p: Params, q: Params)
    ensures Effects(Scalars(p), q) == q.(
              idist := if p.ifields != [] then q.idist else p.idist, odist := if p.ofields != [] then q.odist else p.odist,
              ioffset := if p.ifields != [] then q.ioffset else p.ioffset,
              ooffset := if p.ofields != [] then q.ooffset else p.ooffset)
  {
    var id := if p.ifields != [] then [] else [InDist(p.idist)];
    var od := if p.ofields != [] then [] else [OutDist(p.odist)];
    var io := if p.ifields != [] then [] else [InOffset(p.ioffset)];
    var oo := if p.ofields != [] then [] else [OutOffset(p.ooffset)];
    EffectsConcat(id + od + io, oo, q);
    EffectsConcat(id + od, io, q);
    EffectsConcat(id, od, q);
    forall s, r ensures Effects([s], r) == Effect(s, r) {
      EffectsOne(s, r);
    }
  }

  lemma SectionEffects(p: Params)
    ensures Effects(Sections(p), WithHeader(p)) == WithOutput(p, WithInput(p, WithHeader(p)))
  {
    var q := WithHeader(p);
    EffectsConcat(InSections(p), OutSections(p) + Scalars(p), q);
    var q1 := Effects(InSections(p), q);
    EffectsConcat(OutSections(p), Scalars(p), q1);
    EffectsInFields(p.ifields, q);
    EffectsOutFields(p.ofields, q1);
    EffectsOne(InStride(p.istride, p.itype), q);
    EffectsOne(OutStride(p.ostride, p.otype), q1);
    ScalarEffects(p, Effects(OutSections(p), q1));
  }

  lemma SectionsFit(p: Params)
    requires Machine(p)
    ensures forall i :: 0 <= i < |Sections(p)| ==> SectionFits(Sections(p)[i])
  {
    assert forall i :: 0 <= i < |InSections(p)| ==> SectionFits(InSections(p)[i]);
    assert forall i :: 0 <= i < |OutSections(p)| ==> SectionFits(OutSections(p)[i]);
    assert forall i :: 0 <= i < |Scalars(p)| ==> SectionFits(Scalars(p)[i]);
  }

  // ---------------------------------------------------------------- round trip

  /** The last section consists of its keyword only: an offset vector or field list entry that is empty. */
  predicate LastSectionEmpty(p: Params) {
    if p.ofields == [] then p.ooffset == []
    else if p.ifields == [] then p.ioffset == []
    else p.ofields[|p.ofields| - 1].bricks == []
  }

  /** That keyword is the last word of the token. */
  predicate Dangling(p: Params) {
    LastSectionEmpty(p) && FlagWords(p) == []
  }

  lemma LastSection(p: Params)
    ensures Sections(p) != []
    ensures |SectionWords(Sections(p)[|Sections(p)| - 1])| == 1 <==> LastSectionEmpty(p)
  {
    var n := |Sections(p)|;
    if p.ofields == [] {
      assert Sections(p)[n - 1] == OutOffset(p.ooffset);
    } else if p.ifields == [] {
      assert Sections(p)[n - 1] == InOffset(p.ioffset);
    } else {
      assert Scalars(p) == [];
      assert Sections(p)[n - 1] == OutField(p.ofields[|p.ofields| - 1]);
      BricksAreWords(p.ofields[|p.ofields| - 1].bricks);
    }
  }

  lemma BricksAreWords(bricks: seq<Brick>)
    ensures bricks != [] ==> |BricksWords(bricks)| > 0
  {
  }

  /** The sections that are parsed: all of them, but for a dangling keyword. */
  function Parsable(p: Params): seq<Section> {
    if Dangling(p) then Sections(p)[..|Sections(p)| - 1] else Sections(p)
  }

  /** The words the section loop leaves. */
  function LeftOver(p: Params): seq<string> {
    if Dangling(p) then [Key(Sections(p)[|Sections(p)| - 1])] else FlagWords(p)
  }

  lemma KeyOnly(s: Section)
    requires |SectionWords(s)| == 1
    ensures SectionWords(s) == [Key(s)]
  {
  }

  lemma WordsBeforeKey(ss: seq<Section>)
    requires ss != [] && |SectionWords(ss[|ss| - 1])| == 1
    ensures SectionsWords(ss) == SectionsWords(ss[..|ss| - 1]) + [Key(ss[|ss| - 1])]
  {
    var n := |ss| - 1;
    assert ss == ss[..n] + [ss[n]];
    SectionsWordsSnoc(ss[..n], ss[n]);
    KeyOnly(ss[n]);
  }

  lemma WordsToParse(p: Params)
    ensures Words(p) == HeaderWords(p) + (SectionsWords(Parsable(p)) + LeftOver(p))
  {
    LastSection(p);
    hide Sections, HeaderWords, FlagWords, SectionWords, SectionsWords, LastSectionEmpty, Key;
    if Dangling(p) {
      WordsBeforeKey(Sections(p));
      assert SectionsWords(Sections(p)) + [] == SectionsWords(Sections(p));
    }
  }

  lemma FlagsStop(p: Params)
    ensures Plain(FlagWords(p)) && Stops(FlagWords(p))
  {
    assert FlagWords(p) != [] ==> FlagWords(p)[0] == "CB" || FlagWords(p)[0] == "scale" || FlagWords(p)[0] == "multigpu";
    assert !IsDigit("CB"[0]) && !IsDigit("scale"[0]) && !IsDigit("multigpu"[0]);
  }

  lemma KeyIsPlain(s: Section)
    ensures Plain([Key(s)]) && StartsSection(Key(s))
  {
    assert !IsDigit(Key(s)[0]);
  }

  lemma LeftOverStops(p: Params)
    ensures Plain(LeftOver(p)) && Stops(LeftOver(p))
    ensures LeftOver(p) == [] ==> !LastSectionEmpty(p)
  {
    hide Key, Plain, LastSectionEmpty;
    if Dangling(p) {
      KeyIsPlain(Sections(p)[|Sections(p)| - 1]);
    } else {
      FlagsStop(p);
    }
  }

  /** What parsing the token of `p` into a fresh description yields. */
  function Reread(p: Params): Params {
    var q := Effects(Parsable(p), WithHeader(p));
    if Dangling(p) then q
    else q.(runCallbacks := p.runCallbacks, scaleFactor := if p.scaleFactor != 1.0 then 0.1239 else 1.0)
  }

  lemma FlagsAreRead(p: Params, q: Params)
    requires !q.runCallbacks && q.scaleFactor == 1.0
    ensures TakeFlags(LeftOver(p), q) == Some(if Dangling(p) then q
              else q.(runCallbacks := p.runCallbacks, scaleFactor := if p.scaleFactor != 1.0 then 0.1239 else 1.0))
  {
    hide TakeFlags, StartsSection, LastSectionEmpty;
    if Dangling(p) {
      KeyStartsSection(Sections(p)[|Sections(p)| - 1]);
      KeyIsNoFlag(LeftOver(p)[0], q);
    } else {
      TakeFlagsOf(p, q);
    }
  }

  lemma KeyStartsSection(s: Section)
    ensures StartsSection(Key(s))
  {
  }

  lemma KeyIsNoFlag(word: string, q: Params)
    requires StartsSection(word)
    ensures TakeFlags([word], q) == Some(q)
  {
    assert word[0] == 'i' || word[0] == 'o';
  }

  lemma {:induction false} EffectsKeepFlags(ss: seq<Section>, q: Params)
    ensures Effects(ss, q).runCallbacks == q.runCallbacks && Effects(ss, q).scaleFactor == q.scaleFactor
    ensures Effects(ss, q).multiGpu == q.multiGpu
  {
    if ss != [] {
      EffectsKeepFlags(ss[1..], Effect(ss[0], q));
    }
  }

  /** Parsing never fails on a printed token. */
  lemma ParsesToReread(p: Params)
    requires Machine(p)
    ensures FromToken(Token(p), Fresh()) == Some(Reread(p))
  {
    hide Words, Token, HeaderWords, LeftOver, Sections, TakeHeader, TakeFlags, LastSectionEmpty, Plain, Stops, SectionWords;
    TokenSplits(p);
    WordsToParse(p);
    var ss := Parsable(p);
    TakeHeaderOf(p, SectionsWords(ss) + LeftOver(p), Fresh());
    SectionsFit(p);
    LeftOverStops(p);
    LastSection(p);
    TakeSectionsOf(ss, LeftOver(p), WithHeader(p));
    EffectsKeepFlags(ss, WithHeader(p));
    FlagsAreRead(p, Effects(ss, WithHeader(p)));
  }

  /** Nothing dangles: the sections restore every printed field, the flags all but the GPU count. */
  lemma RereadRestores(p: Params)
    requires !Dangling(p)
    ensures Reread(p) == Normal(p).(multiGpu := 0)
  {
    SectionEffects(p);
  }

  // A dangling keyword is lost.

  /** The last section undone. */
  lemma LastEffect(p: Params)
    requires Dangling(p)
    ensures var last := Sections(p)[|Sections(p)| - 1];
            Normal(p) == Effect(last, Reread(p))
  {
    var n := |Sections(p)| - 1;
    assert Sections(p) == Sections(p)[..n] + [Sections(p)[n]];
    EffectsConcat(Sections(p)[..n], [Sections(p)[n]], WithHeader(p));
    EffectsOne(Sections(p)[n], Reread(p));
    SectionEffects(p);
  }

  lemma {:induction false} OffsetsStay(ss: seq<Section>, q: Params)
    ensures (forall i :: 0 <= i < |ss| ==> !ss[i].OutOffset?) ==> Effects(ss, q).ooffset == q.ooffset
    ensures (forall i :: 0 <= i < |ss| ==> !ss[i].InOffset?) ==> Effects(ss, q).ioffset == q.ioffset
  {
    if ss != [] {
      OffsetsStay(ss[1..], Effect(ss[0], q));
    }
  }

  /** What replaces the dangling section when the reread description is printed. */
  function Replacement(p: Params): seq<Section>
    requires Dangling(p)
  {
    if p.ofields == [] then [OutOffset([0, 0])]
    else if p.ifields == [] then [InOffset([0, 0])]
    else if |p.ofields| > 1 then []
    else [OutStride([], Unset), OutDist(0), OutOffset([0, 0])]
  }

  lemma DanglingOffset(p: Params)
    requires Dangling(p) && (p.ofields == [] || p.ifields == [])
    ensures Reread(p) == if p.ofields == [] then Normal(p).(ooffset := [0, 0]) else Normal(p).(ioffset := [0, 0])
  {
    LastIsOffset(p);
    LastEffect(p);
    OffsetsStay(Parsable(p), WithHeader(p));
    hide Normal, Sections, Dangling;
  }

  lemma LastIsOffset(p: Params)
    requires p.ofields == [] || p.ifields == []
    ensures var n := |Sections(p)| - 1;
      && Sections(p)[n] == (if p.ofields == [] then OutOffset(p.ooffset) else InOffset(p.ioffset))
      && forall i :: 0 <= i < n ==> if p.ofields == [] then !Sections(p)[i].OutOffset? else !Sections(p)[i].InOffset?
  {
  }

  lemma DanglingOffsetSections(p: Params, q: Params)
    requires Dangling(p) && (p.ofields == [] || p.ifields == [])
    requires q == if p.ofields == [] then Normal(p).(ooffset := [0, 0]) else Normal(p).(ioffset := [0, 0])
    ensures Sections(q) == Parsable(p) + Replacement(p)
  {
    assert Scalars(p)[..|Scalars(p)| - 1] + Replacement(p) == Scalars(q);
    assert InSections(p) == InSections(q) && OutSections(p) == OutSections(q);
  }

  lemma FieldUndone(n: Params, q: Params, f: Field)
    requires n == Effect(OutField(f), q)
    ensures q == n.(ofields := n.ofields[..|n.ofields| - 1])
  {
    assert q.ofields == (q.ofields + [f])[..|q.ofields|];
  }

  lemma DanglingField(p: Params)
    requires Dangling(p) && p.ofields != [] && p.ifields != []
    ensures Reread(p) == Normal(p).(ofields := p.ofields[..|p.ofields| - 1])
  {
    LastEffect(p);
    LastIsField(p);
    assert Normal(p).ofields == p.ofields;
    hide Reread, Normal, Sections, Dangling;
    FieldUndone(Normal(p), Reread(p), p.ofields[|p.ofields| - 1]);
  }

  lemma LastIsField(p: Params)
    requires p.ofields != [] && p.ifields != []
    ensures Sections(p) == InFields(p.ifields) + OutFields(p.ofields[..|p.ofields| - 1]) + [OutField(p.ofields[|p.ofields| - 1])]
  {
    assert Scalars(p) == [];
    assert OutFields(p.ofields) == OutFields(p.ofields[..|p.ofields| - 1]) + [OutField(p.ofields[|p.ofields| - 1])];
  }

  lemma DanglingFieldSections(p: Params, q: Params)
    requires Dangling(p) && p.ofields != [] && p.ifields != []
    requires q == Normal(p).(ofields := p.ofields[..|p.ofields| - 1])
    ensures Sections(q) == Parsable(p) + Replacement(p)
  {
    LastIsField(p);
    assert Parsable(p) == InFields(p.ifields) + OutFields(q.ofields);
  }

  lemma ReplacementLength(p: Params)
    requires Dangling(p)
    ensures |SectionsWords(Replacement(p))| != 1
  {
    var a, b, c := OutStride([], Unset), OutDist(0), OutOffset([0, 0]);
    SectionsWordsConcat([a], [b, c]);
    assert [a] + [b, c] == [a, b, c];
    assert SectionsWords([a]) == SectionWords(a);
    assert SectionsWords([InOffset([0, 0])]) == SectionWords(InOffset([0, 0]));
    assert SectionsWords([c]) == SectionWords(c);
  }

  /** Printing again does not give the token back. */
  lemma DanglingChangesToken(p: Params)
    requires Dangling(p)
    ensures Reread(p) != Normal(p) && Token(Reread(p)) != Token(p)
  {
    var q := Reread(p);
    if p.ofields == [] || p.ifields == [] {
      DanglingOffset(p);
      DanglingOffsetSections(p, q);
    } else {
      DanglingField(p);
      DanglingFieldSections(p, q);
    }
    assert HeaderWords(q) == HeaderWords(p) && FlagWords(q) == FlagWords(p) == [];
    WordsToParse(p);
    SectionsWordsConcat(Parsable(p), Replacement(p));
    ReplacementLength(p);
    assert |Words(q)| != |Words(p)|;
    TokenSplits(p);
    TokenSplits(q);
    PrintedFromNormal(p);
  }

  /** A GPU count is printed under a word that is not parsed. */
  lemma MultiGpuChangesToken(p: Params)
    requires p.multiGpu > 1
    ensures Reread(p) != Normal(p) && Token(Reread(p)) != Token(p)
  {
    assert FlagWords(p) != [];
    RereadRestores(p);
    var q := Reread(p);
    PrintedFromNormal(p);
    assert Sections(q) == Sections(Normal(p)) && HeaderWords(q) == HeaderWords(Normal(p));
    assert |FlagWords(q)| + 2 == |FlagWords(Normal(p))|;
    TokenSplits(p);
    TokenSplits(q);
  }

  predicate Faithful(p: Params) {
    p.multiGpu <= 1 && !Dangling(p)
  }

  /**
   Main result: parsing a printed token always succeeds, and it restores every
   printed field, equivalently prints the same token again, exactly when no GPU
   count is printed and no keyword dangles.
   */
  lemma TokenRoundTrip(p: Params)
    requires Machine(p)
    ensures var r := FromToken(Token(p), Fresh());
      && r.Some?
      && (r.value == Normal(p) <==> Faithful(p))
      && (Token(r.value) == Token(p) <==> Faithful(p))
  {
    ParsesToReread(p);
    if Dangling(p) {
      DanglingChangesToken(p);
    } else if p.multiGpu > 1 {
      MultiGpuChangesToken(p);
    } else {
      RereadRestores(p);
      PrintedFromNormal(p);
    }
  }

  /** In particular for non-empty offset vectors and fields, whatever else is printed. */
  lemma TokenRoundTripOfFilled(p: Params)
    requires Machine(p) && p.multiGpu <= 1 && p.ioffset != [] && p.ooffset != []
    requires forall i :: 0 <= i < |p.ofields| ==> p.ofields[i].bricks != []
    ensures FromToken(Token(p), Fresh()) == Some(Normal(p)) && Token(Normal(p)) == Token(p)
  {
    TokenRoundTrip(p);
    PrintedFromNormal(p);
  }
}
