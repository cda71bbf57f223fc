/**
 * The whole-file version with the buffered version's merge policy. It loads
 * text like the primary version (the lines from the `##`-count onward, or
 * exit when no header line exists), and its merge is the buffered one's,
 * except that both places that write a data row hand the integer position
 * to the tab join, which raises: the private branch at once, the joined
 * branch once a compatible record is met (its sample column is indexed
 * first, which may raise sooner). So no data row is ever written.
 */
module VcfRe {
  import opened VcfCommon
  import VcfBuffered

  type ArchaicVcf = VcfBuffered.ArchaicVcf

  // ---------------------------------------------------------------------
  // Building the file objects

  /** `MODERNVCF.__init__`: strip the comments, resolve the header, collect the POS column. */
  method OpenModern(lines: seq<Row>) returns (r: Result<ModernVcf>)
    ensures Stripped(lines).None? ==> r == Err(NoHeaderLine)
    ensures Stripped(lines).Some? && Resolve(Stripped(lines).value[0]).Err? ==>
              r == Err(Resolve(Stripped(lines).value[0]).error)
    ensures r.Ok? ==> Stripped(lines) == Some(r.value.text)
                      && Resolve(r.value.text[0]) == Ok(r.value.index)
                      && (forall s :: s in r.value.pool <==>
                            exists i :: 1 <= i < |r.value.text| && r.value.index.pos < |r.value.text[i]|
                                        && r.value.text[i][r.value.index.pos] == s)
    ensures r.Ok? <==> Stripped(lines).Some? && Resolve(Stripped(lines).value[0]).Ok?
                       && DataRowsReach(Stripped(lines).value, Resolve(Stripped(lines).value[0]).value.pos)
    ensures r == Err(ShortRow) <==> Stripped(lines).Some? && Resolve(Stripped(lines).value[0]).Ok?
                                    && !DataRowsReach(Stripped(lines).value, Resolve(Stripped(lines).value[0]).value.pos)
  {
    var text := StripComments(lines);
    if text.None? {
      return Err(NoHeaderLine);
    }
    var index := Resolve(text.value[0]);
    if index.Err? {
      return Err(index.error);
    }
    var pool := CollectPool(text.value, index.value.pos);
    if pool.None? {
      return Err(ShortRow);
    }
    return Ok(ModernVcf(text.value, index.value, pool.value));
  }

  /** `ARCHAICVCF.__init__`: strip the comments and resolve the header. */
  method OpenArchaic(lines: seq<Row>) returns (r: Result<ArchaicVcf>)
    ensures Stripped(lines).None? ==> r == Err(NoHeaderLine)
    ensures Stripped(lines).Some? && Resolve(Stripped(lines).value[0]).Err? ==>
              r == Err(Resolve(Stripped(lines).value[0]).error)
    ensures r.Ok? ==> Stripped(lines) == Some(r.value.text) && Resolve(r.value.text[0]) == Ok(r.value.index)
    ensures r.Ok? <==> Stripped(lines).Some? && Resolve(Stripped(lines).value[0]).Ok?
  {
    var text := StripComments(lines);
    if text.None? {
      return Err(NoHeaderLine);
    }
    var index := Resolve(text.value[0]);
    if index.Err? {
      return Err(index.error);
    }
    return Ok(VcfBuffered.ArchaicVcf(text.value, index.value));
  }

  // ---------------------------------------------------------------------
  // The merge, as specification functions

  /** What one inner scan did: finished normally, and how many records it moved past. */
  datatype Cursor = Cursor(ok: bool, skipped: nat)

  /**
   * The inner scan from record `j`: past smaller records, over incompatible
   * ones at the position, stopping at a greater one; a compatible record at
   * the position raises.
   */
  function Scan(m: seq<Row>, mi: ColumnIndex, site: VcfBuffered.Site, j: nat): (c: Cursor)
    decreases |m| - j
  {
    if j >= |m| then Cursor(true, 0)
    else match ReadRecord(m[j], mi)
      case None => Cursor(false, 0)
      case Some(rec) =>
        if site.pos > rec.pos then
          var r := Scan(m, mi, site, j + 1);
          Cursor(r.ok, r.skipped + 1)
        else if site.pos == rec.pos then
          if Compatible(rec.ref, rec.alt, site.ref, site.alt) then Cursor(false, 0)
          else Scan(m, mi, site, j + 1)
        else Cursor(true, 0)
  }

  /** One archaic row: the SNP filter, the private branch (which raises) or a guarded scan. */
  function Step(s: MergeState, row: Row, a: ArchaicVcf, m: ModernVcf): (t: MergeState) {
    if !s.ok then s
    else match VcfBuffered.ReadSite(row, a.index)
      case None => MergeState(false, s.seek, s.out)
      case Some(site) =>
        if !VcfBuffered.IsSnp(site) then s
        else match VcfBuffered.ArchaicGenotype(row, a.index)
          case None => MergeState(false, s.seek, s.out)
          case Some(g) =>
            if g != "0" && !VcfBuffered.InPool(site.pos, m.pool) then MergeState(false, s.seek, s.out)
            else if s.seek < |m.text| - 1 then
              var c := Scan(m.text, m.index, site, s.seek);
              MergeState(c.ok, s.seek + c.skipped, s.out)
            else s
  }

  function Run(a: ArchaicVcf, m: ModernVcf, header: Row, k: nat): (s: MergeState)
    requires 1 <= k <= |a.text|
    decreases k
  {
    if k == 1 then MergeState(true, 1, [header])
    else Step(Run(a, m, header, k - 1), a.text[k - 1], a, m)
  }

  /** The whole merge: the buffered version's opening, then the walk. */
  function Outcome(a: ArchaicVcf, m: ModernVcf): (s: MergeState) {
    match VcfBuffered.Opening(a, m)
    case None => MergeState(false, 1, [])
    case Some(header) => Run(a, m, header, |a.text|)
  }

  // ---------------------------------------------------------------------
  // The merge as the source runs it

  method ScanModern(m: seq<Row>, mi: ColumnIndex, site: VcfBuffered.Site, seek: nat)
    returns (ok: bool, seek': nat)
    ensures seek <= seek'
    ensures Cursor(ok, seek' - seek) == Scan(m, mi, site, seek)
  {
    seek' := seek;
    var j := seek;
    while j < |m|
      invariant seek <= j && seek <= seek'
      invariant Scan(m, mi, site, seek)
                == Cursor(Scan(m, mi, site, j).ok, Scan(m, mi, site, j).skipped + (seek' - seek))
      decreases |m| - j
    {
      var rec := ReadRecord(m[j], mi);
      if rec.None? {
        return false, seek';
      }
      if site.pos > rec.value.pos {
        seek' := seek' + 1;
      } else if site.pos == rec.value.pos {
        if Compatible(rec.value.ref, rec.value.alt, site.ref, site.alt) {
          return false, seek';
        }
      } else {
        break;
      }
      j := j + 1;
    }
    return true, seek';
  }

  method MergeRow(row: Row, a: ArchaicVcf, m: ModernVcf, seek: nat, out: seq<Row>)
    returns (ok: bool, seek': nat)
    ensures MergeState(ok, seek', out) == Step(MergeState(true, seek, out), row, a, m)
  {
    var site := VcfBuffered.ReadSite(row, a.index);
    if site.None? {
      return false, seek;
    }
    if !VcfBuffered.IsSnp(site.value) {
      return true, seek;
    }
    var g := VcfBuffered.ArchaicGenotype(row, a.index);
    if g.None? {
      return false, seek;
    }
    if g.value != "0" && !VcfBuffered.InPool(site.value.pos, m.pool) {
      return false, seek;
    }
    ok, seek' := true, seek;
    if seek < |m.text| - 1 {
      ok, seek' := ScanModern(m.text, m.index, site.value, seek);
    }
  }

  lemma {:induction false} RunStaysFailed(a: ArchaicVcf, m: ModernVcf, header: Row, k: nat, k': nat)
    requires 1 <= k <= k' <= |a.text|
    requires !Run(a, m, header, k).ok
    ensures Run(a, m, header, k') == Run(a, m, header, k)
    decreases k'
  {
    if k' > k {
      RunStaysFailed(a, m, header, k, k' - 1);
    }
  }

  /** `ARCHAICVCF.__add__`: the opening, the header row, then the archaic rows until one raises. */
  method Merge(a: ArchaicVcf, m: ModernVcf) returns (ok: bool, out: seq<Row>)
    ensures ok == Outcome(a, m).ok && out == Outcome(a, m).out
  {
    var header := VcfBuffered.Opening(a, m);
    if header.None? {
      return false, [];
    }
    out := [header.value];
    var seek := 1;
    var k := 1;
    while k < |a.text|
      invariant 1 <= k <= |a.text|
      invariant Run(a, m, header.value, k) == MergeState(true, seek, out)
    {
      ok, seek := MergeRow(a.text[k], a, m, seek, out);
      if !ok {
        RunStaysFailed(a, m, header.value, k + 1, |a.text|);
        return false, out;
      }
      k := k + 1;
    }
    return true, out;
  }

  // ---------------------------------------------------------------------
  // Relation to the buffered version

  /**
   * The scan finishes exactly when the buffered scan finishes without
   * writing a row, and then moves the cursor as far.
   */
  lemma {:induction false} ScanAgrees(m: seq<Row>, mi: ColumnIndex, chrom: string, site: VcfBuffered.Site, geno: string, j: nat)
    ensures var b := VcfBuffered.Scan(m, mi, chrom, site, geno, j);
            Scan(m, mi, site, j).ok == (b.ok && b.rows == [])
            && (Scan(m, mi, site, j).ok ==> Scan(m, mi, site, j).skipped == b.skipped)
    decreases |m| - j
  {
    if j < |m| {
      ScanAgrees(m, mi, chrom, site, geno, j + 1);
    }
  }

  /**
   * One archaic row goes through exactly when the buffered version would
   * handle it without writing a row; then both leave the same cursor.
   */
  lemma StepAgrees(s: MergeState, row: Row, a: ArchaicVcf, m: ModernVcf, chrom: string)
    requires s.ok
    ensures var t := VcfBuffered.Step(s, row, a, m, chrom);
            var u := Step(s, row, a, m);
            u.out == s.out && u.ok == (t.ok && t.out == s.out) && (u.ok ==> u == t)
  {
    match VcfBuffered.ReadSite(row, a.index)
    case None =>
    case Some(site) =>
      match VcfBuffered.ArchaicGenotype(row, a.index)
      case None =>
      case Some(g) =>
        ScanAgrees(m.text, m.index, chrom, site, g, s.seek);
  }

  /**
   * The walk writes nothing after the header, and it is still going exactly
   * when the buffered walk is still going and has written nothing after the
   * header, in which case the two are in the same state.
   */
  lemma {:induction false} RunAgrees(a: ArchaicVcf, m: ModernVcf, chrom: string, header: Row, k: nat)
    requires 1 <= k <= |a.text|
    ensures Run(a, m, header, k).out == [header]
    ensures var b := VcfBuffered.Run(a, m, chrom, header, k);
            Run(a, m, header, k).ok == (b.ok && |b.out| == 1)
            && (Run(a, m, header, k).ok ==> Run(a, m, header, k) == b)
    decreases k
  {
    if k > 1 {
      RunAgrees(a, m, chrom, header, k - 1);
      var r := Run(a, m, header, k - 1);
      var b := VcfBuffered.Run(a, m, chrom, header, k - 1);
      VcfBuffered.RunKeepsHeader(a, m, chrom, header, k - 1);
      VcfBuffered.StepExtends(b, a.text[k - 1], a, m, chrom);
      if r.ok {
        StepAgrees(r, a.text[k - 1], a, m, chrom);
      }
    }
  }

  /**
   * The merge writes at most the header row, and returns True exactly when
   * the buffered merge on the same files returns True having written only
   * its header, that is, when no archaic site is private and none joins.
   */
  lemma WritesOnlyHeader(a: ArchaicVcf, m: ModernVcf)
    ensures VcfBuffered.Opening(a, m).None? ==> Outcome(a, m).out == []
    ensures VcfBuffered.Opening(a, m).Some? ==> Outcome(a, m).out == [VcfBuffered.Opening(a, m).value]
    ensures Outcome(a, m).ok <==> VcfBuffered.Outcome(a, m).ok && |VcfBuffered.Outcome(a, m).out| == 1
  {
    if VcfBuffered.Opening(a, m).Some? {
      var header := VcfBuffered.Opening(a, m).value;
      RunAgrees(a, m, VcfBuffered.Chrom(a), header, |a.text|);
      VcfBuffered.RunKeepsHeader(a, m, VcfBuffered.Chrom(a), header, |a.text|);
    }
  }
}
