/**
 Tokens of shared/fft_params.h written out: what a description that is filled in by
 validate prints, and a GPU count that is read from a token.
 */
module TokenExamples {
  import opened Arith
  import opened Options
  import opened Problems
  import opened Strings
  import opened Tokens
  import opened TokenTheorems

  // -------------------------------------------------------- an added GPU count

  /** The flags that can be printed together with other words. */
  lemma FlagsThen(p: Params, tail: seq<string>, q: Params)
    requires p.multiGpu <= 1 && tail != [] && tail[0] != "CB" && tail[0] != "scale"
    ensures TakeFlags(FlagWords(p) + tail, q) == TakeMultiGpu(tail, q.(
              runCallbacks := q.runCallbacks || p.runCallbacks,
              scaleFactor := if p.scaleFactor != 1.0 then 0.1239 else q.scaleFactor))
  {
    hide TakeMultiGpu;
    var scale := if p.scaleFactor != 1.0 then ["scale"] else [];
    assert "scale" != "CB";
    assert FlagWords(p) + tail == (if p.runCallbacks then ["CB"] else []) + (scale + tail);
    assert TakeCallback(FlagWords(p) + tail, q).rest == scale + tail;
    assert (scale + tail)[|scale|..] == tail;
  }

  lemma TakeFlagsWithCount(p: Params, q: Params, n: nat)
    requires p.multiGpu <= 1 && n < TWO64
    ensures TakeFlags(FlagWords(p) + ["multiGPU", Decimal(n)], q) == Some(q.(
              runCallbacks := q.runCallbacks || p.runCallbacks,
              scaleFactor := if p.scaleFactor != 1.0 then 0.1239 else q.scaleFactor, multiGpu := n))
  {
    hide TakeFlags, FlagWords, TakeSize, Decimal;
    assert "multiGPU" != "CB" && "multiGPU" != "scale";
    assert ["multiGPU", Decimal(n)] == ["multiGPU"] + [Decimal(n)] + [];
    FlagsThen(p, ["multiGPU", Decimal(n)], q);
    TakeSizeOf("multiGPU", n, []);
  }

  lemma CountStops(p: Params, n: nat)
    ensures Plain(FlagWords(p) + ["multiGPU", Decimal(n)]) && Stops(FlagWords(p) + ["multiGPU", Decimal(n)])
  {
    FlagsStop(p);
    var w := FlagWords(p) + ["multiGPU", Decimal(n)];
    assert w[0] == "CB" || w[0] == "scale" || w[0] == "multigpu" || w[0] == "multiGPU";
    assert !IsDigit("CB"[0]) && !IsDigit("scale"[0]) && !IsDigit("multigpu"[0]) && !IsDigit("multiGPU"[0]);
  }

  lemma WordsAreClean(p: Params)
    ensures AllClean(Words(p))
  {
    HeaderIsClean(p);
    FlagsAreClean(p);
    SectionsAreClean(Sections(p));
    hide Clean, HeaderWords, FlagWords, Sections;
  }

  lemma SplitTagged(w: seq<string>, more: seq<string>)
    requires w != [] && AllClean(w) && AllClean(more)
    ensures Split(Join(w) + Tagged(more)) == w + more
  {
    hide Clean, Split, Join, Tagged;
    JoinConcat(w, more);
    SplitJoin(w + more);
  }

  lemma CountIsClean(n: nat)
    ensures AllClean(["multiGPU", Decimal(n)])
  {
    SignedIsClean(n);
  }

  lemma Regrouped(a: string, b: string, c: string)
    ensures a + (b + c) == a + b + c
  {
  }

  lemma TokenWithCountSplits(p: Params, n: nat)
    ensures Split(Token(p) + "_multiGPU_" + Decimal(n)) == Words(p) + ["multiGPU", Decimal(n)]
  {
    hide Words, Split, Join, Tagged, AllClean, Decimal;
    WordsAreClean(p);
    CountIsClean(n);
    CountTagged(n);
    SplitTagged(Words(p), ["multiGPU", Decimal(n)]);
    Regrouped(Token(p), "_multiGPU_", Decimal(n));
  }

  lemma CountTagged(n: nat)
    ensures Tagged(["multiGPU", Decimal(n)]) == "_multiGPU_" + Decimal(n)
  {
    var w := ["multiGPU", Decimal(n)];
    assert w[1..] == [Decimal(n)] && w[1..][1..] == [];
    assert Tagged(w[1..]) == "_" + Decimal(n) + "";
    assert Tagged(w) == "_" + "multiGPU" + Tagged(w[1..]);
  }

  /** A GPU count appended to a token under the word that is parsed is read; all printed fields are restored. */
  lemma CountIsRead(p: Params, n: nat)
    requires Machine(p) && p.multiGpu <= 1 && n < TWO64
    ensures FromToken(Token(p) + "_multiGPU_" + Decimal(n), Fresh()) == Some(Normal(p).(multiGpu := n))
  {
    hide Words, Token, HeaderWords, FlagWords, Sections, TakeHeader, TakeFlags, Plain, Stops, SectionWords, Split;
    var tail := FlagWords(p) + ["multiGPU", Decimal(n)];
    TokenWithCountSplits(p, n);
    WordsAndTail(p, ["multiGPU", Decimal(n)]);
    TakeHeaderOf(p, SectionsWords(Sections(p)) + tail, Fresh());
    SectionsFit(p);
    CountStops(p, n);
    TakeSectionsOf(Sections(p), tail, WithHeader(p));
    SectionEffects(p);
    TakeFlagsWithCount(p, WithOutput(p, WithInput(p, WithHeader(p))), n);
  }

  lemma WordsAndTail(p: Params, tail: seq<string>)
    ensures Words(p) + tail == HeaderWords(p) + (SectionsWords(Sections(p)) + (FlagWords(p) + tail))
  {
  }

  // ----------------------------------------------------------- odd headers

  lemma TailOfHeader(a: string, b: string, w: seq<string>)
    ensures ([a, b] + w)[2..] == w && ([a, b] + w)[0] == a && ([a, b] + w)[1] == b
  {
  }

  /** A header of any words: complex and forward only under these words, in place only under `ip`, precision kept otherwise. */
  lemma HeaderOfAnyWords(a: string, b: string, v: seq<nat>, prec: string, place: string, n: nat, rest: seq<string>, q: Params)
    requires TokenTheorems.Fits(v) && n < TWO64 && !AllDigits(prec)
    ensures var w := [a, b] + (["len"] + Numbers(v) + ([prec, place] + (["batch"] + [Decimal(n)] + rest)));
            var r := TakeHeader(w, q);
      && r.Got? && r.rest == rest && r.value.length == v && r.value.nbatch == n
      && (r.value.transformType == ComplexForward <==> a == "complex" && b == "forward")
      && (r.value.transformType == ComplexInverse <==> a == "complex" && b != "forward")
      && (r.value.transformType == RealForward <==> a != "complex" && b == "forward")
      && (r.value.placement == InPlace <==> place == "ip")
      && (prec == "half" ==> r.value.precision == Half) && (prec == "single" ==> r.value.precision == Single)
      && (prec == "double" ==> r.value.precision == Double)
      && (prec != "half" && prec != "single" && prec != "double" ==> r.value.precision == q.precision)
  {
    hide TakeVector, TakeSize, Decimal, Numbers;
    var w2 := ["batch"] + [Decimal(n)] + rest;
    var w1 := [prec, place] + w2;
    TailOfHeader(a, b, ["len"] + Numbers(v) + w1);
    TailOfHeader(prec, place, w2);
    TakeVectorOf("len", v, w1);
    TakeSizeOf("batch", n, rest);
  }

  // ------------------------------------------------------------- vocabulary

  /** The words of types, fields, bricks and flags, as the tokens in use have them. */
  lemma Vocabulary()
    ensures TypeWord(ComplexInterleaved) == "CI" && TypeWord(ComplexPlanar) == "CP" && TypeWord(RealArray) == "R"
    ensures TypeWord(HermitianInterleaved) == "HI" && TypeWord(HermitianPlanar) == "HP" && TypeWord(Unset) == "UN"
    ensures TransformWords(ComplexInverse) == ["complex", "inverse"] && TransformWords(RealInverse) == ["real", "inverse"]
    ensures PlacementWord(NotInPlace) == "op" && Key(InField(Field([]))) == "ifield" && Key(OutField(Field([]))) == "ofield"
    ensures FlagWords(Fresh().(runCallbacks := true, scaleFactor := 0.5, multiGpu := 3)) == ["CB", "scale", "multigpu", "3"]
    ensures BrickWords(Brick([1], [2], [3], 0, 5)) ==
            ["brick", "lower", "1", "upper", "2", "stride", "3", "dev", "5"]
    ensures BrickWords(Brick([1], [2], [3], 4, 5)) ==
            ["brick", "lower", "1", "upper", "2", "stride", "3", "rank", "4", "dev", "5"]
  {
    SmallDecimals();
    FlagsWritten();
    BrickWritten(0);
    BrickWritten(4);
  }

  lemma SmallDecimals()
    ensures Decimal(1) == "1" && Decimal(2) == "2" && Decimal(3) == "3" && Decimal(4) == "4" && Decimal(5) == "5"
  {
  }

  lemma FlagsWritten()
    ensures FlagWords(Fresh().(runCallbacks := true, scaleFactor := 0.5, multiGpu := 3)) ==
            ["CB", "scale", "multigpu", Decimal(3)]
  {
    hide Decimal;
  }

  lemma BrickWritten(rank: nat)
    ensures BrickWords(Brick([1], [2], [3], rank, 5)) ==
            ["brick", "lower", Decimal(1), "upper", Decimal(2), "stride", Decimal(3)]
            + (if rank == 0 then [] else ["rank", Decimal(rank)]) + ["dev", Decimal(5)]
  {
    hide Decimal;
    assert Numbers([1]) == [Decimal(1)] && Numbers([2]) == [Decimal(2)] && Numbers([3]) == [Decimal(3)];
  }

  // ------------------------------------------------------------ whole tokens

  /** The description of a 1D forward transform in place with nothing else given, filled in. */
  function Line(t: TransformType, n: nat, nbatch: nat, precision: Precision): Params {
    Validated(Fresh().(transformType := t, length := [n], nbatch := nbatch, precision := precision))
  }

  lemma LineFields(t: TransformType, n: nat, nbatch: nat, precision: Precision)
    requires t == ComplexForward || t == RealForward
    ensures var p := Line(t, n, nbatch, precision);
      && p.istride == p.ostride == [1] && p.ioffset == p.ooffset == [0, 0] && p.ifields == p.ofields == []
      && p.idist == (if t == RealForward then 2 * (n / 2 + 1) else n)
      && p.odist == (if t == RealForward then n / 2 + 1 else n)
      && p.itype == (if t == RealForward then RealArray else ComplexInterleaved)
      && p.otype == (if t == RealForward then HermitianInterleaved else ComplexInterleaved)
      && p.length == [n] && p.nbatch == nbatch && p.precision == precision && p.placement == InPlace
      && p.transformType == t && !p.runCallbacks && p.scaleFactor == 1.0 && p.multiGpu == 0
  {
    TimesIsProduct(n, 1);
    TimesIsProduct(n / 2 + 1, 1);
    TimesIsProduct(2 * (n / 2 + 1), 1);
  }

  lemma SixSections(a: Section, b: Section, c: Section, d: Section, e: Section, f: Section)
    ensures SectionsWords([a, b] + [c, d] + [e, f]) ==
            SectionWords(a) + SectionWords(b) + SectionWords(c) + SectionWords(d) + SectionWords(e) + SectionWords(f)
  {
    hide SectionWords;
    SectionsWordsConcat([a, b] + [c, d], [e, f]);
    SectionsWordsConcat([a, b], [c, d]);
    TwoSections(a, b);
    TwoSections(c, d);
    TwoSections(e, f);
  }

  lemma TwoSections(a: Section, b: Section)
    ensures SectionsWords([a, b]) == SectionWords(a) + SectionWords(b)
  {
    hide SectionWords;
    assert [a, b] == [a] + [b];
    SectionsWordsSnoc([a], b);
    assert SectionsWords([a]) == SectionWords(a) + SectionsWords([a][1..]);
  }

  lemma StrideText(t: ArrayType)
    ensures SectionWords(InStride([1], t)) == ["istride", "1", TypeWord(t)]
    ensures SectionWords(OutStride([1], t)) == ["ostride", "1", TypeWord(t)]
  {
    hide TypeWord;
    assert Decimal(1) == "1";
    assert Numbers([1]) == ["1"];
  }

  lemma OffsetText()
    ensures SectionWords(InOffset([0, 0])) == ["ioffset", "0", "0"]
    ensures SectionWords(OutOffset([0, 0])) == ["ooffset", "0", "0"]
  {
    assert Decimal(0) == "0";
    assert Numbers([0, 0]) == ["0", "0"];
  }

  lemma DistText(n: nat)
    ensures SectionWords(InDist(n)) == ["idist", Decimal(n)] && SectionWords(OutDist(n)) == ["odist", Decimal(n)]
  {
    hide Decimal;
  }

  lemma LineSections(p: Params)
    requires p.istride == p.ostride == [1] && p.ioffset == p.ooffset == [0, 0] && p.ifields == p.ofields == []
    ensures SectionsWords(Sections(p)) ==
            ["istride", "1", TypeWord(p.itype)] + ["ostride", "1", TypeWord(p.otype)]
            + ["idist", Decimal(p.idist)] + ["odist", Decimal(p.odist)] + ["ioffset", "0", "0"] + ["ooffset", "0", "0"]
  {
    var a, b := InStride([1], p.itype), OutStride([1], p.otype);
    var c, d, e, f := InDist(p.idist), OutDist(p.odist), InOffset([0, 0]), OutOffset([0, 0]);
    assert Sections(p) == [a, b] + [c, d] + [e, f];
    hide Sections, SectionsWords, SectionWords, Decimal, TypeWord;
    SixSections(a, b, c, d, e, f);
    StrideText(p.itype);
    StrideText(p.otype);
    DistText(p.idist);
    DistText(p.odist);
    OffsetText();
  }

  lemma LineHeader(p: Params)
    requires |p.length| == 1 && (p.transformType == ComplexForward || p.transformType == RealForward)
    requires p.placement == InPlace
    ensures HeaderWords(p) ==
      [if p.transformType == RealForward then "real" else "complex", "forward"] + ["len", Decimal(p.length[0])]
      + [if p.precision == Half then "half" else if p.precision == Single then "single" else "double", "ip"]
      + ["batch", Decimal(p.nbatch)]
  {
    hide Decimal;
    assert Numbers(p.length) == [Decimal(p.length[0])];
  }

  lemma NoFlags(p: Params)
    requires !p.runCallbacks && p.scaleFactor == 1.0 && p.multiGpu == 0
    ensures Words(p) == HeaderWords(p) + SectionsWords(Sections(p))
  {
    assert FlagWords(p) == [];
    hide HeaderWords, Sections, SectionsWords;
    assert SectionsWords(Sections(p)) + [] == SectionsWords(Sections(p));
  }

  lemma WordsOfLine(t: TransformType, n: nat, nbatch: nat, precision: Precision)
    requires t == ComplexForward || t == RealForward
    ensures Words(Line(t, n, nbatch, precision)) ==
      [if t == RealForward then "real" else "complex", "forward"] + ["len", Decimal(n)]
      + [if precision == Half then "half" else if precision == Single then "single" else "double", "ip"]
      + ["batch", Decimal(nbatch)]
      + (["istride", "1", if t == RealForward then "R" else "CI"]
         + ["ostride", "1", if t == RealForward then "HI" else "CI"]
         + ["idist", Decimal(if t == RealForward then 2 * (n / 2 + 1) else n)]
         + ["odist", Decimal(if t == RealForward then n / 2 + 1 else n)]
         + ["ioffset", "0", "0"] + ["ooffset", "0", "0"])
  {
    var p := Line(t, n, nbatch, precision);
    LineFields(t, n, nbatch, precision);
    hide Line, Decimal, Sections, SectionsWords, HeaderWords, Words;
    NoFlags(p);
    LineSections(p);
    LineHeader(p);
  }

  lemma TaggedWord(key: string, value: string)
    ensures Tagged([key, value]) == "_" + key + ("_" + value)
    ensures Join([key, value]) == key + ("_" + value)
  {
    TaggedOne(value);
    assert [key, value][1..] == [value];
  }

  lemma TaggedOne(value: string)
    ensures Tagged([value]) == "_" + value
  {
    assert [value][1..] == [];
    assert Tagged([value]) == "_" + value + "";
  }

  lemma TaggedThree(a: string, b: string, c: string)
    ensures Tagged([a, b, c]) == "_" + a + ("_" + b + ("_" + c))
  {
    TaggedWord(b, c);
    assert [a, b, c][1..] == [b, c];
  }

  lemma JoinFour(g: seq<string>, h: seq<string>, i: seq<string>, j: seq<string>)
    requires g != []
    ensures Join(g + h + i + j) == Join(g) + Tagged(h) + Tagged(i) + Tagged(j)
  {
    hide Join, Tagged;
    JoinConcat(g + h + i, j);
    JoinConcat(g + h, i);
    JoinConcat(g, h);
  }

  lemma TaggedSix(k: seq<string>, l: seq<string>, m: seq<string>, n: seq<string>, o: seq<string>, p: seq<string>)
    ensures Tagged(k + l + m + n + o + p) == Tagged(k) + Tagged(l) + Tagged(m) + Tagged(n) + Tagged(o) + Tagged(p)
  {
    hide Tagged;
    TaggedConcat(k + l + m + n + o, p);
    TaggedConcat(k + l + m + n, o);
    TaggedConcat(k + l + m, n);
    TaggedConcat(k + l, m);
    TaggedConcat(k, l);
  }

  /** The text of the first half of the token. */
  lemma HeaderText(r: bool, precision: string)
    ensures Join([if r then "real" else "complex", "forward"]) == if r then "real_forward" else "complex_forward"
    ensures Tagged([precision, "ip"]) == "_" + precision + "_ip"
  {
    TaggedWord(if r then "real" else "complex", "forward");
    TaggedWord(precision, "ip");
  }

  lemma TypesText(r: bool)
    ensures Tagged(["istride", "1", if r then "R" else "CI"]) == if r then "_istride_1_R" else "_istride_1_CI"
    ensures Tagged(["ostride", "1", if r then "HI" else "CI"]) == if r then "_ostride_1_HI" else "_ostride_1_CI"
  {
    hide Tagged;
    TaggedThree("istride", "1", if r then "R" else "CI");
    TaggedThree("ostride", "1", if r then "HI" else "CI");
  }

  lemma OffsetsText()
    ensures Tagged(["ioffset", "0", "0"]) == "_ioffset_0_0" && Tagged(["ooffset", "0", "0"]) == "_ooffset_0_0"
  {
    hide Tagged;
    TaggedThree("ioffset", "0", "0");
    TaggedThree("ooffset", "0", "0");
  }

  lemma NumberText(n: nat, nbatch: nat, d: nat, e: nat)
    ensures Tagged(["len", Decimal(n)]) == "_len_" + Decimal(n)
    ensures Tagged(["batch", Decimal(nbatch)]) == "_batch_" + Decimal(nbatch)
    ensures Tagged(["idist", Decimal(d)]) == "_idist_" + Decimal(d)
    ensures Tagged(["odist", Decimal(e)]) == "_odist_" + Decimal(e)
  {
    hide Decimal, Tagged;
    TaggedWord("len", Decimal(n));
    TaggedWord("batch", Decimal(nbatch));
    TaggedWord("idist", Decimal(d));
    TaggedWord("odist", Decimal(e));
  }

  /** The whole token of a 1D forward transform in place, filled in. */
  lemma TokenOfLine(t: TransformType, n: nat, nbatch: nat, precision: Precision)
    requires t == ComplexForward || t == RealForward
    ensures var r := t == RealForward;
            var word := if precision == Half then "half" else if precision == Single then "single" else "double";
            Token(Line(t, n, nbatch, precision)) ==
              (if r then "real_forward" else "complex_forward") + ("_len_" + Decimal(n))
              + ("_" + word + "_ip") + ("_batch_" + Decimal(nbatch))
              + ((if r then "_istride_1_R" else "_istride_1_CI") + (if r then "_ostride_1_HI" else "_ostride_1_CI")
                 + ("_idist_" + Decimal(if r then 2 * (n / 2 + 1) else n)) + ("_odist_" + Decimal(if r then n / 2 + 1 else n))
                 + "_ioffset_0_0" + "_ooffset_0_0")
  {
    var r := t == RealForward;
    var word := if precision == Half then "half" else if precision == Single then "single" else "double";
    var d, e := if r then 2 * (n / 2 + 1) else n, if r then n / 2 + 1 else n;
    hide Line, Decimal, Words, Join, Tagged;
    WordsOfLine(t, n, nbatch, precision);
    var head := [if r then "real" else "complex", "forward"] + ["len", Decimal(n)] + [word, "ip"] + ["batch", Decimal(nbatch)];
    var tail := ["istride", "1", if r then "R" else "CI"] + ["ostride", "1", if r then "HI" else "CI"]
                + ["idist", Decimal(d)] + ["odist", Decimal(e)] + ["ioffset", "0", "0"] + ["ooffset", "0", "0"];
    JoinConcat(head, tail);
    JoinFour([if r then "real" else "complex", "forward"], ["len", Decimal(n)], [word, "ip"], ["batch", Decimal(nbatch)]);
    TaggedSix(["istride", "1", if r then "R" else "CI"], ["ostride", "1", if r then "HI" else "CI"],
              ["idist", Decimal(d)], ["odist", Decimal(e)], ["ioffset", "0", "0"], ["ooffset", "0", "0"]);
    HeaderText(r, word);
    TypesText(r);
    OffsetsText();
    NumberText(n, nbatch, d, e);
  }
}
