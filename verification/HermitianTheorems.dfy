/**
 What the symmetriser's writes achieve on a layout whose stored entries are
 separate: exactly the Hermitian symmetry of the self-conjugate planes.
 */
module HermitianTheorems {
  import opened Spectra
  import opened HermitianOps

  /** Entries of self-conjugate planes equal the conjugate of their stored partner. */
  ghost predicate IsHermitian(d: Spectrum, r: seq<Complex>)
    requires Separate(d, |r|)
  {
    forall t :: Stored(d, t) && OwnPlane(d, t.z) ==> r[At(d, t)] == Conj(r[At(d, Partner(d, t))])
  }

  /** `p` holds no entry that the symmetriser overwrites. */
  ghost predicate LeftAlone(d: Spectrum, p: nat) {
    forall t :: Stored(d, t) && At(d, t) == p ==>
      !(OwnPlane(d, t.z) && (Overwritten(d, t) || (Fixed(t.x, d.nx) && Fixed(t.y, d.ny))))
  }

  lemma PartnerIsSource(d: Spectrum, t: Site)
    requires Proper(d) && Stored(d, t) && Overwritten(d, t)
    ensures !Overwritten(d, Partner(d, t))
    ensures !(Fixed(Partner(d, t).x, d.nx) && Fixed(Partner(d, t).y, d.ny))
    ensures Partner(d, Partner(d, t)) == t
  {
  }

  lemma SameWrite(d: Spectrum, n: nat, v: Op, w: Op, t: Site, u: Site)
    requires Proper(d) && Separate(d, n) && Symmetric(d, v, t) && Symmetric(d, w, u)
    ensures w.Conjugate? ==> v.pos != w.cpos
    ensures v.pos == w.pos ==> v == w
  {
    if w.Conjugate? {
      PartnerIsSource(d, u);
      if v.pos == w.cpos {
        assert false;
      }
    }
    if v.pos == w.pos {
      assert t == u;
    }
  }

  /** On a collision-free layout the writes do not race. */
  lemma SymmetricOpsAreRaceFree(d: Spectrum, n: nat, ops: seq<Op>)
    requires Proper(d) && Separate(d, n) && forall op :: op in ops ==> IsSymmetric(d, op)
    ensures RaceFree(ops) && AllInRange(ops, n)
  {
    forall v, w | v in ops && w in ops
      ensures w.Conjugate? ==> v.pos != w.cpos
      ensures v.pos == w.pos ==> v == w
    {
      var t :| Symmetric(d, v, t);
      var u :| Symmetric(d, w, u);
      SameWrite(d, n, v, w, t, u);
    }
  }

  /** `ops` lists exactly the writes the symmetry of `d` asks for, in any order and number. */
  ghost predicate Lists(d: Spectrum, ops: seq<Op>) {
    forall op :: op in ops <==> IsSymmetric(d, op)
  }

  /** The host loops make exactly those writes. */
  lemma HostLists(d: Spectrum)
    requires Proper(d)
    ensures Lists(d, HostOps(d))
  {
    forall op ensures op in HostOps(d) <==> IsSymmetric(d, op) {
      HostOpsAreSymmetric(d, op);
    }
  }

  /** The value every stored entry has afterwards. */
  lemma SymmetrisedEntry(d: Spectrum, b: seq<Complex>, ops: seq<Op>, t: Site)
    requires Proper(d) && Separate(d, |b|) && Lists(d, ops) && Stored(d, t)
    ensures var r := Apply(b, ops)[At(d, t)];
            if OwnPlane(d, t.z) && Fixed(t.x, d.nx) && Fixed(t.y, d.ny) then r == Complex(b[At(d, t)].re, 0.0)
            else if OwnPlane(d, t.z) && Overwritten(d, t) then r == Conj(b[At(d, Partner(d, t))])
            else r == b[At(d, t)]
  {
    SymmetricOpsAreRaceFree(d, |b|, ops);
    ApplyIsResult(b, ops, ops);
    var z, c := ZeroIm(At(d, t)), Conjugate(At(d, t), At(d, Partner(d, t)));
    if OwnPlane(d, t.z) && Fixed(t.x, d.nx) && Fixed(t.y, d.ny) {
      assert Symmetric(d, z, t);
      assert z in ops;
    } else if OwnPlane(d, t.z) && Overwritten(d, t) {
      assert Symmetric(d, c, t);
      assert c in ops;
    } else {
      forall op | op in ops ensures op.pos != At(d, t) {
        var u :| Symmetric(d, op, u);
      }
    }
  }

  /** The three roles of a site and of its partner. */
  lemma PartnerRoles(d: Spectrum, t: Site)
    requires Proper(d) && Stored(d, t)
    ensures Partner(d, Partner(d, t)) == t
    ensures Fixed(t.x, d.nx) && Fixed(t.y, d.ny) <==> Partner(d, t) == t
    ensures Partner(d, t) != t ==> (Overwritten(d, t) <==> !Overwritten(d, Partner(d, t)))
    ensures Partner(d, t) == t ==> !Overwritten(d, t)
  {
  }

  /** Main result: afterwards every self-conjugate plane is Hermitian, in every batch. */
  lemma SymmetriserMakesHermitian(d: Spectrum, b: seq<Complex>, ops: seq<Op>)
    requires Proper(d) && Separate(d, |b|) && Lists(d, ops)
    ensures IsHermitian(d, Apply(b, ops))
  {
    SymmetricOpsAreRaceFree(d, |b|, ops);
    forall t | Stored(d, t) && OwnPlane(d, t.z)
      ensures Apply(b, ops)[At(d, t)] == Conj(Apply(b, ops)[At(d, Partner(d, t))])
    {
      PartnerRoles(d, t);
      PartnerRoles(d, Partner(d, t));
      SymmetrisedEntry(d, b, ops, t);
      SymmetrisedEntry(d, b, ops, Partner(d, t));
    }
  }

  /** Everything else in the buffer, padding included, is untouched. */
  lemma SymmetriserLeavesRest(d: Spectrum, b: seq<Complex>, ops: seq<Op>, p: nat)
    requires Proper(d) && Separate(d, |b|) && Lists(d, ops) && p < |b| && LeftAlone(d, p)
    ensures Apply(b, ops)[p] == b[p]
  {
    SymmetricOpsAreRaceFree(d, |b|, ops);
    ApplyIsResult(b, ops, ops);
    forall op | op in ops ensures op.pos != p {
      var t :| Symmetric(d, op, t);
    }
  }

  lemma HermitianEntryStays(d: Spectrum, b: seq<Complex>, ops: seq<Op>, t: Site)
    requires Proper(d) && Separate(d, |b|) && Lists(d, ops) && IsHermitian(d, b) && Stored(d, t)
    ensures Apply(b, ops)[At(d, t)] == b[At(d, t)]
  {
    PartnerRoles(d, t);
    SymmetrisedEntry(d, b, ops, t);
    if OwnPlane(d, t.z) && Partner(d, t) == t {
      assert b[At(d, t)] == Conj(b[At(d, t)]);
    }
  }

  /** The symmetriser leaves a buffer as it is exactly when it already is Hermitian. */
  lemma HermitianIffUnchanged(d: Spectrum, b: seq<Complex>, ops: seq<Op>)
    requires Proper(d) && Separate(d, |b|) && Lists(d, ops)
    ensures IsHermitian(d, b) <==> Apply(b, ops) == b
  {
    SymmetriserMakesHermitian(d, b, ops);
    if IsHermitian(d, b) {
      forall p | 0 <= p < |b| ensures Apply(b, ops)[p] == b[p] {
        if t :| Stored(d, t) && At(d, t) == p {
          HermitianEntryStays(d, b, ops, t);
        } else {
          SymmetriserLeavesRest(d, b, ops, p);
        }
      }
    }
  }

  /** A second run changes nothing. */
  lemma SymmetriserIsIdempotent(d: Spectrum, b: seq<Complex>, ops: seq<Op>)
    requires Proper(d) && Separate(d, |b|) && Lists(d, ops)
    ensures Apply(Apply(b, ops), ops) == Apply(b, ops)
  {
    SymmetriserMakesHermitian(d, b, ops);
    HermitianIffUnchanged(d, Apply(b, ops), ops);
  }
}
