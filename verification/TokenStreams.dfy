/** The loops of token and from_token: appending words to a string, and parsing words at a position. */
module TokenStreams {
  import opened Arith
  import opened Options
  import opened Problems
  import opened Strings
  import opened Tokens

  // --------------------------------------------------------------- printing

  lemma TaggedSnoc(words: seq<string>, w: string)
    ensures Tagged(words + [w]) == Tagged(words) + "_" + w
  {
    TaggedConcat(words, [w]);
    assert Tagged([w]) == "_" + w + Tagged([]);
  }

  /** append_size_vec. */
  method AppendSizeVec(ret: string, vec: seq<nat>) returns (r: string)
    ensures r == ret + Tagged(Numbers(vec))
  {
    r := ret;
    for i := 0 to |vec|
      invariant r == ret + Tagged(Numbers(vec[..i]))
    {
      r := r + "_";
      r := r + Decimal(vec[i]);
      assert Numbers(vec[..i + 1]) == Numbers(vec[..i]) + [Decimal(vec[i])];
      TaggedSnoc(Numbers(vec[..i]), Decimal(vec[i]));
    }
    assert vec[..|vec|] == vec;
  }

  lemma AppendWord(ret: string, w: seq<string>, word: string)
    ensures ret + Tagged(w) + "_" + word == ret + Tagged(w + [word])
  {
    TaggedSnoc(w, word);
    Associate(ret, Tagged(w), "_", word);
  }

  lemma Associate(a: string, b: string, c: string, d: string)
    ensures a + b + c + d == a + (b + c + d)
  {
  }

  lemma AppendWords(ret: string, w: seq<string>, v: seq<string>)
    ensures ret + Tagged(w) + Tagged(v) == ret + Tagged(w + v)
  {
    TaggedConcat(w, v);
    Associate(ret, Tagged(w), Tagged(v), "");
    assert Tagged(w) + Tagged(v) + "" == Tagged(w) + Tagged(v);
  }

  lemma AppendNothing(ret: string)
    ensures ret + Tagged([]) == ret
  {
  }

  /** append_brick_info. */
  method AppendBrickInfo(ret: string, b: Brick) returns (r: string)
    ensures r == ret + Tagged(BrickWords(b))
  {
    hide Tagged;
    ghost var w: seq<string> := [];
    AppendNothing(ret);
    r := ret + "_" + "brick";
    AppendWord(ret, w, "brick");
    r := r + "_" + "lower";
    AppendWord(ret, w + ["brick"], "lower");
    w := ["brick", "lower"];
    assert [] + ["brick"] + ["lower"] == w;
    r := AppendSizeVec(r, b.lower);
    AppendWords(ret, w, Numbers(b.lower));
    w := w + Numbers(b.lower);
    r := r + "_" + "upper";
    AppendWord(ret, w, "upper");
    w := w + ["upper"];
    r := AppendSizeVec(r, b.upper);
    AppendWords(ret, w, Numbers(b.upper));
    w := w + Numbers(b.upper);
    r := r + "_" + "stride";
    AppendWord(ret, w, "stride");
    w := w + ["stride"];
    r := AppendSizeVec(r, b.stride);
    AppendWords(ret, w, Numbers(b.stride));
    w := w + Numbers(b.stride);
    r := AppendOwner(ret, w, r, b);
  }

  /** The rank, unless it is 0, and the device. */
  method AppendOwner(ghost ret: string, ghost w: seq<string>, r0: string, b: Brick) returns (r: string)
    requires r0 == ret + Tagged(w)
    ensures r == ret + Tagged(w + (if b.rank != 0 then ["rank", SignedDecimal(b.rank)] else []) + ["dev", SignedDecimal(b.device)])
  {
    hide Tagged;
    r := r0;
    ghost var v := w;
    if b.rank != 0 {
      r := r + "_" + "rank";
      r := r + "_" + SignedDecimal(b.rank);
      AppendWord(ret, v, "rank");
      AppendWord(ret, v + ["rank"], SignedDecimal(b.rank));
      v := v + ["rank"] + [SignedDecimal(b.rank)];
      assert v == w + ["rank", SignedDecimal(b.rank)];
    }
    r := r + "_" + "dev";
    r := r + "_" + SignedDecimal(b.device);
    AppendWord(ret, v, "dev");
    AppendWord(ret, v + ["dev"], SignedDecimal(b.device));
    assert v + ["dev"] + [SignedDecimal(b.device)] == v + ["dev", SignedDecimal(b.device)];
    assert b.rank == 0 ==> v == w + [];
  }

  /** A keyword and its numbers. */
  method AppendVector(ret: string, key: string, vec: seq<nat>) returns (r: string)
    ensures r == ret + Tagged([key] + Numbers(vec))
  {
    hide Tagged;
    AppendNothing(ret);
    AppendWord(ret, [], key);
    r := ret + "_" + key;
    r := AppendSizeVec(r, vec);
    assert [] + [key] == [key];
    AppendWords(ret, [key], Numbers(vec));
  }

  method AppendTyped(ret: string, key: string, vec: seq<nat>, t: ArrayType) returns (r: string)
    ensures r == ret + Tagged([key] + (Numbers(vec) + [TypeWord(t)]))
  {
    hide Tagged;
    r := AppendVector(ret, key, vec);
    r := r + "_" + TypeWord(t);
    AppendWord(ret, [key] + Numbers(vec), TypeWord(t));
    assert [key] + Numbers(vec) + [TypeWord(t)] == [key] + (Numbers(vec) + [TypeWord(t)]);
  }

  method AppendSize(ret: string, key: string, n: nat) returns (r: string)
    ensures r == ret + Tagged([key] + [Decimal(n)])
  {
    hide Tagged;
    AppendNothing(ret);
    AppendWord(ret, [], key);
    r := ret + "_" + key;
    assert [] + [key] == [key];
    r := r + "_" + Decimal(n);
    AppendWord(ret, [key], Decimal(n));
  }

  lemma AppendSection(ret: string, ss: seq<Section>, s: Section)
    ensures ret + Tagged(SectionsWords(ss)) + Tagged(SectionWords(s)) == ret + Tagged(SectionsWords(ss + [s]))
  {
    AppendWords(ret, SectionsWords(ss), SectionWords(s));
    SectionsWordsSnoc(ss, s);
  }

  lemma SingleSection(s: Section)
    ensures SectionsWords([s]) == SectionWords(s)
  {
    assert SectionsWords([s]) == SectionWords(s) + [];
  }

  method AppendSizeSection(ret: string, key: string, n: nat, ghost s: Section) returns (r: string)
    requires key == Key(s) && Body(s) == [Decimal(n)]
    ensures r == ret + Tagged(SectionWords(s))
  {
    r := AppendSize(ret, key, n);
  }

  method AppendVectorSection(ret: string, key: string, vec: seq<nat>, ghost s: Section) returns (r: string)
    requires key == Key(s) && Body(s) == Numbers(vec)
    ensures r == ret + Tagged(SectionWords(s))
  {
    r := AppendVector(ret, key, vec);
  }

  lemma JoinTwo(w: seq<string>)
    requires |w| == 2
    ensures Join(w) == w[0] + "_" + w[1]
  {
    assert w[1..] == [w[1]];
    assert Tagged([w[1]]) == "_" + w[1] + Tagged([]);
  }

  /** One field: its keyword and its bricks. */
  method AppendField(ret: string, key: string, f: Field) returns (r: string)
    ensures r == ret + Tagged([key] + BricksWords(f.bricks))
  {
    hide Tagged, BrickWords;
    AppendNothing(ret);
    AppendWord(ret, [], key);
    r := ret + "_" + key;
    assert [key] + BricksWords(f.bricks[..0]) == [] + [key];
    for i := 0 to |f.bricks|
      invariant r == ret + Tagged([key] + BricksWords(f.bricks[..i]))
    {
      r := AppendBrickInfo(r, f.bricks[i]);
      AppendWords(ret, [key] + BricksWords(f.bricks[..i]), BrickWords(f.bricks[i]));
      assert f.bricks[..i + 1] == f.bricks[..i] + [f.bricks[i]];
      BricksWordsSnoc(f.bricks[..i], f.bricks[i]);
      assert [key] + BricksWords(f.bricks[..i]) + BrickWords(f.bricks[i]) == [key] + BricksWords(f.bricks[..i + 1]);
    }
    assert f.bricks[..|f.bricks|] == f.bricks;
  }

  lemma AppendNext(ret: string, ss: seq<Section>, i: nat)
    requires i < |ss|
    ensures ret + Tagged(SectionsWords(ss[..i])) + Tagged(SectionWords(ss[i])) == ret + Tagged(SectionsWords(ss[..i + 1]))
  {
    AppendSection(ret, ss[..i], ss[i]);
    assert ss[..i + 1] == ss[..i] + [ss[i]];
  }

  method AppendInFields(ret: string, fields: seq<Field>) returns (r: string)
    ensures r == ret + Tagged(SectionsWords(InFields(fields)))
  {
    hide Tagged;
    AppendNothing(ret);
    r := ret;
    assert SectionsWords([]) == [];
    hide SectionsWords, BricksWords;
    for i := 0 to |fields|
      invariant r == ret + Tagged(SectionsWords(InFields(fields)[..i]))
    {
      r := AppendField(r, "ifield", fields[i]);
      AppendNext(ret, InFields(fields), i);
    }
    assert InFields(fields)[..|fields|] == InFields(fields);
  }

  method AppendOutFields(ret: string, fields: seq<Field>) returns (r: string)
    ensures r == ret + Tagged(SectionsWords(OutFields(fields)))
  {
    hide Tagged;
    AppendNothing(ret);
    r := ret;
    assert SectionsWords([]) == [];
    hide SectionsWords, BricksWords;
    for i := 0 to |fields|
      invariant r == ret + Tagged(SectionsWords(OutFields(fields)[..i]))
    {
      r := AppendField(r, "ofield", fields[i]);
      AppendNext(ret, OutFields(fields), i);
    }
    assert OutFields(fields)[..|fields|] == OutFields(fields);
  }

  // ---------------------------------------------------------------- parsing

  /** The token cut at its separators: find, substr and erase until none is left. */
  method SplitToken(token0: string) returns (vals: seq<string>)
    ensures vals == Split(token0)
  {
    hide Split, Find;
    vals := [];
    var token := token0;
    var pos := Find(token);
    while pos < |token|
      invariant pos == Find(token)
      invariant Split(token0) == vals + Split(token)
      decreases |token|
    {
      SplitOne(token);
      assert vals + Split(token) == vals + [token[..pos]] + Split(token[pos + 1..]);
      vals := vals + [token[..pos]];
      token := token[pos + 1..];
      pos := Find(token);
    }
    SplitOne(token);
    vals := vals + [token];
  }

  /** The outcome of a parser that started at `start` and stands at `pos`. */
  ghost predicate Took<T>(r: Taken<T>, vals: seq<string>, ok: bool, value: T, pos: nat) {
    && (ok <==> r.Got?)
    && (ok ==> pos <= |vals| && r == Got(value, vals[pos..]))
  }

  /** size_parser. */
  method SizeParser(vals: seq<string>, key: string, start: nat) returns (ok: bool, value: nat, pos: nat)
    requires start <= |vals|
    ensures Took(TakeSize(key, vals[start..]), vals, ok, value, pos)
  {
    pos, value := start, 0;
    if |vals| - pos < 2 || vals[pos] != key {
      return false, value, pos;
    }
    pos := pos + 1;
    var n := Stoull(vals[pos]);
    pos := pos + 1;
    if n == None {
      return false, value, pos;
    }
    return true, n.value, pos;
  }

  /** Values taken before the rest of the list. */
  function Prepend<T>(v: seq<T>, r: Taken<seq<T>>): Taken<seq<T>> {
    match r
    case Fail => Fail
    case Got(u, rest) => Got(v + u, rest)
  }

  lemma PrependEmpty<T>(r: Taken<seq<T>>)
    ensures Prepend([], r) == r
  {
    assert r.Got? ==> [] + r.value == r.value;
  }

  lemma PrependMore<T>(v: seq<T>, x: T, r: Taken<seq<T>>)
    ensures Prepend(v, Prepend([x], r)) == Prepend(v + [x], r)
  {
    assert r.Got? ==> v + ([x] + r.value) == v + [x] + r.value;
  }

  lemma PrependLast<T>(v: seq<T>, rest: seq<string>)
    ensures Prepend(v, Got([], rest)) == Got(v, rest)
  {
    assert v + [] == v;
  }

  /** vector_parser. */
  method VectorParser(vals: seq<string>, key: string, start: nat) returns (ok: bool, vec: seq<nat>, pos: nat)
    requires start <= |vals|
    ensures Took(TakeVector(key, vals[start..]), vals, ok, vec, pos)
  {
    pos, vec := start, [];
    if pos >= |vals| || vals[pos] != key {
      return false, vec, pos;
    }
    pos := pos + 1;
    assert vals[start..][1..] == vals[pos..];
    PrependEmpty(TakeNumbers(vals[pos..]));
    while pos < |vals|
      invariant start < pos <= |vals|
      invariant TakeVector(key, vals[start..]) == Prepend(vec, TakeNumbers(vals[pos..]))
    {
      if !AllDigits(vals[pos]) {
        break;
      }
      var n := Stoull(vals[pos]);
      if n == None {
        return false, vec, pos;
      }
      assert vals[pos..][1..] == vals[pos + 1..];
      pos := pos + 1;
      PrependMore(vec, n.value, TakeNumbers(vals[pos..]));
      vec := vec + [n.value];
    }
    PrependLast(vec, vals[pos..]);
    return true, vec, pos;
  }

  /** One brick of a field, after its first word. */
  method BrickParser(vals: seq<string>, start: nat) returns (ok: bool, b: Brick, pos: nat)
    requires start <= |vals|
    ensures Took(TakeBrick(vals[start..]), vals, ok, b, pos)
  {
    hide TakeVector, TakeSize;
    b, pos := Brick([], [], [], 0, 0), start;
    var vec;
    ok, vec, pos := VectorParser(vals, "lower", pos);
    if !ok { return; }
    b := b.(lower := vec);
    ok, vec, pos := VectorParser(vals, "upper", pos);
    if !ok { return; }
    b := b.(upper := vec);
    ok, vec, pos := VectorParser(vals, "stride", pos);
    if !ok { return; }
    b := b.(stride := vec);
    if pos >= |vals| {
      return false, b, pos;
    }
    var n;
    if vals[pos] == "rank" {
      ok, n, pos := SizeParser(vals, "rank", pos);
      if !ok { return; }
      b := b.(rank := Narrow(n));
    }
    ok, n, pos := SizeParser(vals, "dev", pos);
    if !ok { return; }
    b := b.(device := Narrow(n));
  }

  /** field_parser. */
  method FieldParser(vals: seq<string>, start: nat) returns (ok: bool, f: Field, pos: nat)
    requires start < |vals|
    ensures Took(TakeField(vals[start..]), vals, ok, f, pos)
  {
    hide TakeBrick;
    pos := start + 1;
    var bricks: seq<Brick> := [];
    assert vals[start..][1..] == vals[pos..];
    PrependEmpty(TakeBricks(vals[pos..]));
    while pos < |vals| && vals[pos] == "brick"
      invariant start < pos <= |vals|
      invariant TakeBricks(vals[start + 1..]) == Prepend(bricks, TakeBricks(vals[pos..]))
      decreases |vals| - pos
    {
      assert vals[pos..][1..] == vals[pos + 1..];
      var b;
      ok, b, pos := BrickParser(vals, pos + 1);
      if !ok {
        return false, Field(bricks), pos;
      }
      PrependMore(bricks, b, TakeBricks(vals[pos..]));
      bricks := bricks + [b];
    }
    PrependLast(bricks, vals[pos..]);
    return true, Field(bricks), pos;
  }

  /** A section, by the word at `start`. */
  method SectionParser(vals: seq<string>, start: nat) returns (ok: bool, s: Section, pos: nat)
    requires start < |vals| && StartsSection(vals[start])
    ensures Took(TakeSection(vals[start..]), vals, ok, s, pos)
  {
    hide TakeVector, TakeSize, TakeField;
    var key := vals[start];
    s := InDist(0);
    if key == "istride" || key == "ostride" {
      var vec;
      ok, vec, pos := VectorParser(vals, key, start);
      if !ok { return; }
      if pos == |vals| {
        return false, s, pos;
      }
      var t := TypeOf(vals[pos]);
      pos := pos + 1;
      s := if key == "istride" then InStride(vec, t) else OutStride(vec, t);
    } else if key == "idist" || key == "odist" {
      var n;
      ok, n, pos := SizeParser(vals, key, start);
      if !ok { return; }
      s := if key == "idist" then InDist(n) else OutDist(n);
    } else if key == "ioffset" || key == "ooffset" {
      var vec;
      ok, vec, pos := VectorParser(vals, key, start);
      if !ok { return; }
      s := if key == "ioffset" then InOffset(vec) else OutOffset(vec);
    } else {
      var f;
      ok, f, pos := FieldParser(vals, start);
      if !ok { return; }
      s := if key == "ifield" then InField(f) else OutField(f);
    }
  }

  /** The part of a token before its sections. */
  method HeaderParser(vals: seq<string>, current: Precision, ghost q: Params)
    returns (ok: bool, t: TransformType, length: seq<nat>, precision: Precision, placement: Placement, nbatch: nat, pos: nat)
    requires q.precision == current
    ensures Took(TakeHeader(vals, q), vals, ok, q.(transformType := t, length := length, precision := precision,
                                                   placement := placement, nbatch := nbatch), pos)
  {
    hide TakeVector, TakeSize;
    t, length, precision, placement, nbatch, pos := ComplexForward, [], current, NotInPlace, 0, 0;
    ok := false;
    if |vals| < 2 { return; }
    t := TransformOf(vals[0] == "complex", vals[1] == "forward");
    ok, length, pos := VectorParser(vals, "len", 2);
    if !ok { return; }
    if |vals| - pos < 2 {
      ok := false;
      return;
    }
    precision := PrecisionOf(vals[pos], current);
    placement := if vals[pos + 1] == "ip" then InPlace else NotInPlace;
    assert vals[pos..][2..] == vals[pos + 2..];
    ok, nbatch, pos := SizeParser(vals, "batch", pos + 2);
  }
}
