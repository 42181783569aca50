/**
 The symmetriser's result written out: places as sums of products, mirrored indices
 modulo the lengths, real and imaginary parts.
 */
module HermitianValues {
  import opened Arith
  import opened Spectra
  import opened HermitianOps
  import opened HermitianTheorems

  /** Where entry (x, y, z) of batch `b` is. */
  function Entry(d: Spectrum, b: nat, x: nat, y: nat, z: nat): nat {
    b * d.dist + x * d.sx + y * d.sy + z * d.sz
  }

  lemma EntryIsAt(d: Spectrum, t: Site)
    ensures At(d, t) == Entry(d, t.b, t.x, t.y, t.z)
  {
    TimesIsProduct(t.b, d.dist);
    TimesIsProduct(t.x, d.sx);
    TimesIsProduct(t.y, d.sy);
    TimesIsProduct(t.z, d.sz);
  }

  lemma MirrorWraps(i: nat, n: nat)
    requires i < n
    ensures Mirror(i, n) == (n - i) % n
  {
  }

  lemma PartnerEntry(d: Spectrum, t: Site)
    requires Stored(d, t)
    ensures At(d, Partner(d, t)) == Entry(d, t.b, (d.nx - t.x) % d.nx, (d.ny - t.y) % d.ny, t.z)
  {
    EntryIsAt(d, Partner(d, t));
    MirrorWraps(t.x, d.nx);
    MirrorWraps(t.y, d.ny);
  }

  /** Entries of the planes z = 0 and z = nz / 2 are conjugate to those at the mirrored indices. */
  lemma PlanesAreConjugate(d: Spectrum, b: seq<Complex>, ops: seq<Op>, t: Site)
    requires Proper(d) && Separate(d, |b|) && Lists(d, ops) && Stored(d, t) && (t.z == 0 || 2 * t.z == d.nz)
    ensures var r, p := Apply(b, ops), Entry(d, t.b, t.x, t.y, t.z);
            var q := Entry(d, t.b, (d.nx - t.x) % d.nx, (d.ny - t.y) % d.ny, t.z);
      && p < |r| && q < |r| && r[p].re == r[q].re && r[p].im == -r[q].im
  {
    SymmetriserMakesHermitian(d, b, ops);
    EntryIsAt(d, t);
    PartnerEntry(d, t);
    hide Entry, Apply, At, Partner;
  }

  /** Entries on the mirror lines become real. */
  lemma FixedEntryIsReal(d: Spectrum, b: seq<Complex>, ops: seq<Op>, t: Site)
    requires Proper(d) && Separate(d, |b|) && Lists(d, ops) && Stored(d, t) && (t.z == 0 || 2 * t.z == d.nz)
    requires (t.x == 0 || 2 * t.x == d.nx) && (t.y == 0 || 2 * t.y == d.ny)
    ensures var r, p := Apply(b, ops), Entry(d, t.b, t.x, t.y, t.z);
      && p < |r| && r[p].re == b[p].re && r[p].im == 0.0
  {
    SymmetrisedEntry(d, b, ops, t);
    EntryIsAt(d, t);
    hide Entry, Apply, At, Partner;
  }

  /** Of the other entries, one half is kept and the other half takes their conjugates. */
  lemma OtherEntries(d: Spectrum, b: seq<Complex>, ops: seq<Op>, t: Site)
    requires Proper(d) && Separate(d, |b|) && Lists(d, ops) && Stored(d, t) && (t.z == 0 || 2 * t.z == d.nz)
    requires !((t.x == 0 || 2 * t.x == d.nx) && (t.y == 0 || 2 * t.y == d.ny))
    ensures var r, p := Apply(b, ops), Entry(d, t.b, t.x, t.y, t.z);
            var q := Entry(d, t.b, (d.nx - t.x) % d.nx, (d.ny - t.y) % d.ny, t.z);
            var upper := 2 * t.x > d.nx || ((t.x == 0 || 2 * t.x == d.nx) && 2 * t.y > d.ny);
      && p < |b| && q < |b| && |r| == |b|
      && r[p].re == (if upper then b[q].re else b[p].re)
      && r[p].im == (if upper then -b[q].im else b[p].im)
  {
    SymmetrisedEntry(d, b, ops, t);
    EntryIsAt(d, t);
    PartnerEntry(d, t);
    assert Stored(d, Partner(d, t));
    hide Entry, Apply, At, Partner;
  }
}
