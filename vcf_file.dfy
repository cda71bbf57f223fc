/**
 * The version the driver script uses. Its merge walks the archaic rows in
 * order with a cursor `seek_pointer` into the modern text that moves at most
 * one record per archaic row: the inner scan stops at the first modern record
 * with a smaller position (moving the cursor past it when the archaic
 * position is not beyond the last modern position) or a greater one, and
 * passes over records at the same position, emitting a joined row for each
 * compatible one. Any exception makes the merge return False.
 */
module VcfFile {
  import opened VcfCommon

  /** An archaic file object: its loaded text, column map and sample name. */
  datatype ArchaicVcf = ArchaicVcf(text: seq<Row>, index: ColumnIndex, name: string)

  // ---------------------------------------------------------------------
  // Building the file objects

  /**
   * `MODERNVCF.__init__`: strip the comment lines, resolve the header and
   * collect field 1 of every data row into the position pool.
   */
  method OpenModern(lines: seq<Row>) returns (r: Result<ModernVcf>)
    ensures Stripped(lines).None? ==> r == Err(NoHeaderLine)
    ensures Stripped(lines).Some? && Resolve(Stripped(lines).value[0]).Err? ==>
              r == Err(Resolve(Stripped(lines).value[0]).error)
    ensures r.Ok? ==> Stripped(lines) == Some(r.value.text)
                      && Resolve(r.value.text[0]) == Ok(r.value.index)
                      && (forall s :: s in r.value.pool <==>
                            exists i :: 1 <= i < |r.value.text| && 1 < |r.value.text[i]| && r.value.text[i][1] == s)
    ensures r.Ok? <==> Stripped(lines).Some? && Resolve(Stripped(lines).value[0]).Ok?
                       && DataRowsReach(Stripped(lines).value, 1)
    ensures r == Err(ShortRow) <==> Stripped(lines).Some? && Resolve(Stripped(lines).value[0]).Ok?
                                    && !DataRowsReach(Stripped(lines).value, 1)
  {
    var text := StripComments(lines);
    if text.None? {
      return Err(NoHeaderLine);
    }
    var header := Resolve(text.value[0]);
    if header.Err? {
      return Err(header.error);
    }
    var pool := CollectPool(text.value, 1);
    if pool.None? {
      return Err(ShortRow);
    }
    return Ok(ModernVcf(text.value, header.value, pool.value));
  }

  /**
   * `ARCHAICVCF.__init__`: strip the comment lines, resolve the header and
   * read the archaic sample name, the header cell after "FORMAT".
   */
  method OpenArchaic(lines: seq<Row>) returns (r: Result<ArchaicVcf>)
    ensures Stripped(lines).None? ==> r == Err(NoHeaderLine)
    ensures Stripped(lines).Some? && Resolve(Stripped(lines).value[0]).Err? ==>
              r == Err(Resolve(Stripped(lines).value[0]).error)
    ensures r.Ok? ==> Stripped(lines) == Some(r.value.text) && |r.value.text| > 0
                      && Resolve(r.value.text[0]) == Ok(r.value.index)
                      && r.value.index.sample < |r.value.text[0]|
                      && r.value.name == r.value.text[0][r.value.index.sample]
    ensures r == Err(NoSampleColumn) ==>
              Stripped(lines).Some? && Resolve(Stripped(lines).value[0]).Ok?
              && Resolve(Stripped(lines).value[0]).value.sample == |Stripped(lines).value[0]|
    ensures Stripped(lines).Some? && Resolve(Stripped(lines).value[0]).Ok?
            && Resolve(Stripped(lines).value[0]).value.sample == |Stripped(lines).value[0]| ==>
              r == Err(NoSampleColumn)
    ensures r.Ok? <==> Stripped(lines).Some? && Resolve(Stripped(lines).value[0]).Ok?
                       && Resolve(Stripped(lines).value[0]).value.sample < |Stripped(lines).value[0]|
  {
    var text := StripComments(lines);
    if text.None? {
      return Err(NoHeaderLine);
    }
    var header := Resolve(text.value[0]);
    if header.Err? {
      return Err(header.error);
    }
    if header.value.sample >= |text.value[0]| {
      return Err(NoSampleColumn);
    }
    return Ok(ArchaicVcf(text.value, header.value, text.value[0][header.value.sample]));
  }

  /** `MODERNVCF.get`: the keys the modern header map holds. */
  function ModernGet(m: ModernVcf, key: string): (r: Result<HeaderValue>)
    ensures r.Ok? <==> key in {"chrom", "pos", "ref", "alt", "sample_index"}
    ensures r.Err? ==> r.error == UnknownKey(key)
    ensures key == "chrom" ==> r == Ok(Column(m.index.chrom))
    ensures key == "pos" ==> r == Ok(Column(m.index.pos))
    ensures key == "ref" ==> r == Ok(Column(m.index.ref))
    ensures key == "alt" ==> r == Ok(Column(m.index.alt))
    ensures key == "sample_index" ==> r == Ok(Column(m.index.sample))
  {
    Get(Entries(m.index, "sample_index"), key)
  }

  /** `ARCHAICVCF.get`: the keys the archaic header map holds, the name among them. */
  function ArchaicGet(a: ArchaicVcf, key: string): (r: Result<HeaderValue>)
    ensures r.Ok? <==> key in {"chrom", "pos", "ref", "alt", "archaic_index", "archaic_name"}
    ensures r.Err? ==> r.error == UnknownKey(key)
    ensures key == "chrom" ==> r == Ok(Column(a.index.chrom))
    ensures key == "pos" ==> r == Ok(Column(a.index.pos))
    ensures key == "ref" ==> r == Ok(Column(a.index.ref))
    ensures key == "alt" ==> r == Ok(Column(a.index.alt))
    ensures key == "archaic_index" ==> r == Ok(Column(a.index.sample))
    ensures key == "archaic_name" ==> r == Ok(Name(a.name))
  {
    Get(Entries(a.index, "archaic_index")["archaic_name" := Name(a.name)], key)
  }

  /** `get_samplecount`: the number of modern sample columns. */
  function SampleCount(m: ModernVcf): (n: nat)
    ensures |m.text| > 0 && m.index.sample <= |m.text[0]| ==> n == |m.text[0]| - m.index.sample
    ensures |m.text| > 0 && Resolve(m.text[0]) == Ok(m.index) ==> n == |m.text[0]| - m.index.sample
  {
    |SampleNames(m)|
  }

  /** `get_chrom`: the chromosome of the first archaic data row. */
  function GetChrom(a: ArchaicVcf): (r: Option<string>)
    ensures r.Some? <==> 2 <= |a.text| && a.index.chrom < |a.text[1]|
    ensures r.Some? ==> r.value == a.text[1][a.index.chrom]
  {
    if 2 <= |a.text| && a.index.chrom < |a.text[1]| then Some(a.text[1][a.index.chrom]) else None
  }

  // ---------------------------------------------------------------------
  // The merge (`ARCHAICVCF.__add__`), as specification functions

  /** The fields of one archaic row and its encoded genotype; `pos` stays a string. */
  datatype Site = Site(chrom: string, pos: string, ref: string, alt: string, geno: string)

  /** Read an archaic row; None where the source raises an uncaught IndexError. */
  function ReadSite(row: Row, ix: ColumnIndex): (r: Option<Site>)
    ensures r.Some? <==> ix.chrom < |row| && ix.pos < |row| && ix.ref < |row| && ix.alt < |row|
                         && ix.sample < |row| && EncodeArchaic(row[ix.sample]).Some?
    ensures r.Some? ==> r.value == Site(row[ix.chrom], row[ix.pos], row[ix.ref], row[ix.alt],
                                        EncodeArchaic(row[ix.sample]).value)
  {
    if ix.chrom < |row| && ix.pos < |row| && ix.ref < |row| && ix.alt < |row| && ix.sample < |row| then
      match EncodeArchaic(row[ix.sample])
      case None => None
      case Some(g) => Some(Site(row[ix.chrom], row[ix.pos], row[ix.ref], row[ix.alt], g))
    else None
  }

  /** A non-zero archaic genotype at a position string the modern pool lacks. */
  predicate IsPrivate(site: Site, modern: ModernVcf) {
    site.geno != "0" && !PyIn(PyStr(site.pos), modern.pool)
  }

  /** `md_max_pos`: the position of the last modern row. */
  function LastPos(m: seq<Row>, ix: ColumnIndex): (p: Option<nat>) {
    if |m| > 0 && ix.pos < |m[|m| - 1]| then ParseNat(m[|m| - 1][ix.pos]) else None
  }

  /** What one inner scan did: finished normally, moved the cursor, and wrote. */
  datatype ScanResult = ScanResult(ok: bool, advance: bool, rows: seq<Row>)

  function Prepend(rows: seq<Row>, r: ScanResult): ScanResult {
    ScanResult(r.ok, r.advance, rows + r.rows)
  }

  /** The inner `for md_line in modern[j:]` loop from record `j` on. */
  function Scan(m: seq<Row>, mi: ColumnIndex, site: Site, j: nat): (sc: ScanResult)
    decreases |m| - j
  {
    if j >= |m| then ScanResult(true, false, [])
    else match (ReadRecord(m[j], mi), LastPos(m, mi), ParseNat(site.pos))
      case (Some(rec), Some(maxPos), Some(p)) =>
        if p > rec.pos then ScanResult(true, p <= maxPos, [])
        else if p == rec.pos then
          if Compatible(rec.ref, rec.alt, site.ref, site.alt) then
            match EncodeSamples(Tail(m[j], mi.sample))
            case None => ScanResult(false, false, [])
            case Some(counts) =>
              Prepend([JoinedRow(site.chrom, site.pos, site.ref, rec.alt, site.geno, counts)],
                      Scan(m, mi, site, j + 1))
          else Scan(m, mi, site, j + 1)
        else ScanResult(true, false, [])
      case _ => ScanResult(false, false, [])
  }

  /** One archaic row: the private short-circuit, or a guarded scan of the modern rows. */
  function Step(s: MergeState, row: Row, arch: ArchaicVcf, modern: ModernVcf): (t: MergeState) {
    if !s.ok then s
    else match ReadSite(row, arch.index)
      case None => MergeState(false, s.seek, s.out)
      case Some(site) =>
        if IsPrivate(site, modern) then
          MergeState(true, s.seek,
                     s.out + [PrivateRow(site.chrom, site.pos, site.ref, site.alt, site.geno, SampleCount(modern))])
        else if s.seek < |modern.text| - 1 then ScanStep(s, site, modern)
        else s
  }

  /** The state after a scan from the cursor for a site that is not private. */
  function ScanStep(s: MergeState, site: Site, modern: ModernVcf): (t: MergeState) {
    var sc := Scan(modern.text, modern.index, site, s.seek);
    MergeState(sc.ok, if sc.advance then s.seek + 1 else s.seek, s.out + sc.rows)
  }

  /** The state after the header and archaic rows 1 .. k-1. */
  function Run(arch: ArchaicVcf, modern: ModernVcf, header: Row, k: nat): (s: MergeState)
    requires 1 <= k <= |arch.text|
    decreases k
  {
    if k == 1 then MergeState(true, 1, [header])
    else Step(Run(arch, modern, header, k - 1), arch.text[k - 1], arch, modern)
  }

  /** The output header, or None when reading the chromosome or the modern header raises. */
  function Prelude(arch: ArchaicVcf, modern: ModernVcf): (header: Option<Row>) {
    if GetChrom(arch).Some? && |modern.text| > 0 then Some(OutputHeader(arch.name, SampleNames(modern)))
    else None
  }

  /** The whole merge: its return value and the rows it wrote. */
  function Outcome(arch: ArchaicVcf, modern: ModernVcf): (s: MergeState) {
    match Prelude(arch, modern)
    case None => MergeState(false, 1, [])
    case Some(header) => Run(arch, modern, header, |arch.text|)
  }

  // ---------------------------------------------------------------------
  // The merge as the source runs it

  /** The inner scan loop, from the cursor on. */
  method ScanModern(m: seq<Row>, mi: ColumnIndex, site: Site, seek: nat) returns (ok: bool, advance: bool, rows: seq<Row>)
    ensures ScanResult(ok, advance, rows) == Scan(m, mi, site, seek)
  {
    rows := [];
    var j := seek;
    while j < |m|
      invariant seek <= j
      invariant Scan(m, mi, site, seek) == Prepend(rows, Scan(m, mi, site, j))
      decreases |m| - j
    {
      var rec := ReadRecord(m[j], mi);
      var maxPos := LastPos(m, mi);
      var p := ParseNat(site.pos);
      if rec.None? || maxPos.None? || p.None? {
        return false, false, rows;
      }
      if p.value > rec.value.pos {
        return true, p.value <= maxPos.value, rows;
      } else if p.value == rec.value.pos {
        if Compatible(rec.value.ref, rec.value.alt, site.ref, site.alt) {
          var counts := EncodeSamples(Tail(m[j], mi.sample));
          if counts.None? {
            return false, false, rows;
          }
          rows := rows + [JoinedRow(site.chrom, site.pos, site.ref, rec.value.alt, site.geno, counts.value)];
        }
      } else {
        break;
      }
      j := j + 1;
    }
    return true, false, rows;
  }

  lemma {:induction false} RunStaysFailed(arch: ArchaicVcf, modern: ModernVcf, header: Row, k: nat, k': nat)
    requires 1 <= k <= k' <= |arch.text|
    requires !Run(arch, modern, header, k).ok
    ensures Run(arch, modern, header, k') == Run(arch, modern, header, k)
    decreases k'
  {
    if k' > k {
      RunStaysFailed(arch, modern, header, k, k' - 1);
    }
  }

  /** The body of the outer loop: one archaic row against the modern rows. */
  method MergeRow(row: Row, arch: ArchaicVcf, modern: ModernVcf, seek: nat, out: seq<Row>)
    returns (ok: bool, seek': nat, out': seq<Row>)
    ensures MergeState(ok, seek', out') == Step(MergeState(true, seek, out), row, arch, modern)
  {
    var site := ReadSite(row, arch.index);
    if site.None? {
      return false, seek, out;
    }
    var s := site.value;
    ok, seek', out' := true, seek, out;
    if s.geno != "0" && s.pos !in modern.pool {
      out' := out + [PrivateRow(s.chrom, s.pos, s.ref, s.alt, s.geno, SampleCount(modern))];
    } else if seek < |modern.text| - 1 {
      var advance, rows;
      ok, advance, rows := ScanModern(modern.text, modern.index, s, seek);
      out' := out + rows;
      if advance {
        seek' := seek + 1;
      }
    }
  }

  /**
   * `ARCHAICVCF.__add__`: write the output header, then walk the archaic
   * rows; return False at the first exception, keeping what was written.
   */
  method Merge(arch: ArchaicVcf, modern: ModernVcf) returns (ok: bool, out: seq<Row>)
    ensures ok == Outcome(arch, modern).ok && out == Outcome(arch, modern).out
  {
    var header := Prelude(arch, modern);
    if header.None? {
      return false, [];
    }
    out := [header.value];
    var seek := 1;
    var k := 1;
    while k < |arch.text|
      invariant 1 <= k <= |arch.text|
      invariant Run(arch, modern, header.value, k) == MergeState(true, seek, out)
    {
      ok, seek, out := MergeRow(arch.text[k], arch, modern, seek, out);
      if !ok {
        RunStaysFailed(arch, modern, header.value, k + 1, |arch.text|);
        return false, out;
      }
      k := k + 1;
    }
    return true, out;
  }

  // ---------------------------------------------------------------------
  // Properties of the merge

  /**
   * The private branch fires exactly for a non-zero archaic call ("0" also
   * stands for an unreadable allele) at a position string absent from the
   * pool; it writes one row, the site followed by one "0" per modern sample,
   * and leaves the cursor alone.
   */
  lemma PrivateSite(s: MergeState, row: Row, arch: ArchaicVcf, modern: ModernVcf)
    requires s.ok && ReadSite(row, arch.index).Some?
    ensures var token := row[arch.index.sample];
            IsPrivate(ReadSite(row, arch.index).value, modern) <==>
              row[arch.index.pos] !in modern.pool && Diploid(token) && AlleleSum(token) > 0
    ensures IsPrivate(ReadSite(row, arch.index).value, modern) ==>
              var site := ReadSite(row, arch.index).value;
              var t := Step(s, row, arch, modern);
              var n := |s.out|;
              t.ok && t.seek == s.seek && |t.out| == n + 1 && t.out[..n] == s.out
              && t.out[n][..5] == [site.chrom, site.pos, site.ref, site.alt, site.geno]
              && ParseNat(site.geno) == Some(AlleleSum(row[arch.index.sample]))
              && |t.out[n]| == 5 + SampleCount(modern)
              && forall i :: 5 <= i < |t.out[n]| ==> t.out[n][i] == "0"
  {
    ArchaicZero(row[arch.index.sample]);
  }

  /** A scan moves the cursor only past a modern record before the archaic position, which does not pass the last one. */
  lemma {:induction false} ScanAdvance(m: seq<Row>, mi: ColumnIndex, site: Site, j: nat)
    ensures Scan(m, mi, site, j).advance ==>
              Scan(m, mi, site, j).ok && ParseNat(site.pos).Some? && LastPos(m, mi).Some?
              && exists i :: j <= i < |m| && ReadRecord(m[i], mi).Some?
                             && ReadRecord(m[i], mi).value.pos < ParseNat(site.pos).value <= LastPos(m, mi).value
    decreases |m| - j
  {
    if j < |m| {
      ScanAdvance(m, mi, site, j + 1);
    }
  }

  /**
   * One archaic row moves the cursor by at most one, only when the guard let
   * the scan run, the site is not private and a modern record before the
   * archaic position was found; the cursor never moves past the last modern
   * row. Once the cursor is at the last modern row no scan happens.
   */
  lemma StepCursor(s: MergeState, row: Row, arch: ArchaicVcf, modern: ModernVcf)
    requires s.ok
    ensures var t := Step(s, row, arch, modern);
            s.seek <= t.seek <= s.seek + 1
            && (t.seek == s.seek + 1 ==>
                  t.ok && s.seek < |modern.text| - 1 && ReadSite(row, arch.index).Some?
                  && !IsPrivate(ReadSite(row, arch.index).value, modern)
                  && var p := ParseNat(row[arch.index.pos]);
                     p.Some? && exists i :: s.seek <= i < |modern.text| && ReadRecord(modern.text[i], modern.index).Some?
                                            && ReadRecord(modern.text[i], modern.index).value.pos < p.value)
    ensures s.seek >= |modern.text| - 1 && ReadSite(row, arch.index).Some?
            && !IsPrivate(ReadSite(row, arch.index).value, modern) ==>
              Step(s, row, arch, modern) == s
  {
    match ReadSite(row, arch.index)
    case None =>
    case Some(site) =>
      ScanAdvance(modern.text, modern.index, site, s.seek);
  }

  /** The largest value the cursor can take: the last modern row's index (1 for a header-only modern text). */
  function SeekBound(modern: ModernVcf): nat {
    if |modern.text| >= 2 then |modern.text| - 1 else 1
  }

  /**
   * The cursor starts at 1, stays within the modern rows and, row by row,
   * never decreases and grows by at most one.
   */
  lemma {:induction false} RunCursor(arch: ArchaicVcf, modern: ModernVcf, header: Row, k: nat)
    requires 1 <= k <= |arch.text|
    ensures Run(arch, modern, header, 1).seek == 1
    ensures 1 <= Run(arch, modern, header, k).seek <= SeekBound(modern)
    ensures k < |arch.text| ==>
              Run(arch, modern, header, k).seek <= Run(arch, modern, header, k + 1).seek
                                                <= Run(arch, modern, header, k).seek + 1
    decreases k
  {
    if k > 1 {
      RunCursor(arch, modern, header, k - 1);
      var s := Run(arch, modern, header, k - 1);
      if s.ok {
        StepCursor(s, arch.text[k - 1], arch, modern);
      }
    }
    if k < |arch.text| && Run(arch, modern, header, k).ok {
      StepCursor(Run(arch, modern, header, k), arch.text[k], arch, modern);
    }
  }

  /** The cursor is monotone over the whole walk. */
  lemma {:induction false} CursorMonotone(arch: ArchaicVcf, modern: ModernVcf, header: Row, k: nat, k': nat)
    requires 1 <= k <= k' <= |arch.text|
    ensures Run(arch, modern, header, k).seek <= Run(arch, modern, header, k').seek
            <= Run(arch, modern, header, k).seek + (k' - k)
    decreases k'
  {
    if k' > k {
      CursorMonotone(arch, modern, header, k, k' - 1);
      RunCursor(arch, modern, header, k' - 1);
    }
  }

  /** Modern records `j` ..= `i` can all be read and sit at the archaic position. */
  predicate SamePositionRun(m: seq<Row>, mi: ColumnIndex, site: Site, j: nat, i: nat) {
    i < |m| && ParseNat(site.pos).Some?
    && forall k :: j <= k <= i ==> ReadRecord(m[k], mi).Some? && ReadRecord(m[k], mi).value.pos == ParseNat(site.pos).value
  }

  /** Row `r` is the joined row of modern record `i`: compatible alleles, every sample token readable. */
  predicate JoinedFrom(m: seq<Row>, mi: ColumnIndex, site: Site, i: nat, r: Row) {
    i < |m| && ReadRecord(m[i], mi).Some?
    && Compatible(ReadRecord(m[i], mi).value.ref, ReadRecord(m[i], mi).value.alt, site.ref, site.alt)
    && EncodeSamples(Tail(m[i], mi.sample)).Some?
    && r == JoinedRow(site.chrom, site.pos, site.ref, ReadRecord(m[i], mi).value.alt, site.geno,
                      EncodeSamples(Tail(m[i], mi.sample)).value)
  }

  /**
   * Every row a scan writes is the joined row of a compatible modern record
   * reached through records at the archaic position only: the scan stops at
   * the first record before or after it, but not at one equal to it.
   */
  lemma {:induction false} ScanRows(m: seq<Row>, mi: ColumnIndex, site: Site, j: nat)
    ensures forall r :: 0 <= r < |Scan(m, mi, site, j).rows| ==>
              exists i :: j <= i && SamePositionRun(m, mi, site, j, i) && JoinedFrom(m, mi, site, i, Scan(m, mi, site, j).rows[r])
    decreases |m| - j
  {
    if j < |m| {
      ScanRows(m, mi, site, j + 1);
      var sc := Scan(m, mi, site, j);
      var rest := Scan(m, mi, site, j + 1);
      var rec, p := ReadRecord(m[j], mi), ParseNat(site.pos);
      if rec.Some? && LastPos(m, mi).Some? && p.Some? && p.value == rec.value.pos {
        var joins := Compatible(rec.value.ref, rec.value.alt, site.ref, site.alt)
                     && EncodeSamples(Tail(m[j], mi.sample)).Some?;
        assert joins ==> sc.rows == [JoinedRowOf(m, mi, site, j)] + rest.rows;
        assert !joins ==> sc.rows == [] || sc.rows == rest.rows;
        forall r | 0 <= r < |sc.rows|
          ensures exists i :: j <= i && SamePositionRun(m, mi, site, j, i) && JoinedFrom(m, mi, site, i, sc.rows[r])
        {
          if joins && r == 0 {
            assert SamePositionRun(m, mi, site, j, j) && JoinedFrom(m, mi, site, j, sc.rows[r]);
          } else {
            var r' := if joins then r - 1 else r;
            assert sc.rows[r] == rest.rows[r'];
            var i :| j + 1 <= i && SamePositionRun(m, mi, site, j + 1, i) && JoinedFrom(m, mi, site, i, rest.rows[r']);
            assert SamePositionRun(m, mi, site, j, i);
          }
        }
      } else {
        assert sc.rows == [];
      }
      assert forall r :: 0 <= r < |sc.rows| ==>
              exists i :: j <= i && SamePositionRun(m, mi, site, j, i) && JoinedFrom(m, mi, site, i, sc.rows[r]);
    } else {
      assert Scan(m, mi, site, j).rows == [];
    }
  }

  /**
   * Conversely, a run of readable, compatible records at the archaic
   * position starting at the cursor is joined record by record, in order.
   */
  lemma {:induction false} ScanJoinsRun(m: seq<Row>, mi: ColumnIndex, site: Site, j: nat, e: nat)
    requires j <= e <= |m|
    requires LastPos(m, mi).Some?
    requires e > j ==> SamePositionRun(m, mi, site, j, e - 1)
    requires forall i :: j <= i < e ==> JoinedFrom(m, mi, site, i, JoinedRowOf(m, mi, site, i))
    ensures |Scan(m, mi, site, j).rows| >= e - j
    ensures forall i :: j <= i < e ==> Scan(m, mi, site, j).rows[i - j] == JoinedRowOf(m, mi, site, i)
    decreases e - j
  {
    if j < e {
      assert JoinedFrom(m, mi, site, j, JoinedRowOf(m, mi, site, j));
      if j + 1 < e {
        assert SamePositionRun(m, mi, site, j + 1, e - 1);
      }
      ScanJoinsRun(m, mi, site, j + 1, e);
    }
  }

  /**
   * The reference for what a scan writes: the joined row of every record of
   * the run at the archaic position from `j` on whose alleles are compatible
   * and whose sample tokens encode, in file order. Incompatible records of
   * the run are passed over; the run ends at the first record elsewhere.
   */
  function RunJoins(m: seq<Row>, mi: ColumnIndex, site: Site, j: nat): (rows: seq<Row>)
    decreases |m| - j
  {
    if j >= |m| then []
    else match (ReadRecord(m[j], mi), ParseNat(site.pos))
      case (Some(rec), Some(p)) =>
        if rec.pos != p then []
        else (if JoinedFrom(m, mi, site, j, JoinedRowOf(m, mi, site, j)) then [JoinedRowOf(m, mi, site, j)] else [])
             + RunJoins(m, mi, site, j + 1)
      case _ => []
  }

  /** The scan writes a prefix of the reference on every input. */
  lemma {:induction false} ScanPrefixOfRunJoins(m: seq<Row>, mi: ColumnIndex, site: Site, j: nat)
    ensures Scan(m, mi, site, j).rows <= RunJoins(m, mi, site, j)
    decreases |m| - j
  {
    if j < |m| {
      ScanPrefixOfRunJoins(m, mi, site, j + 1);
      var rec := ReadRecord(m[j], mi);
      if rec.Some? && ParseNat(site.pos) == Some(rec.value.pos)
         && Compatible(rec.value.ref, rec.value.alt, site.ref, site.alt)
         && EncodeSamples(Tail(m[j], mi.sample)).Some? {
        assert JoinedFrom(m, mi, site, j, JoinedRowOf(m, mi, site, j));
      }
    }
  }

  /** Every compatible record of the same-position run from `j` has readable sample tokens. */
  predicate RunEncodes(m: seq<Row>, mi: ColumnIndex, site: Site, j: nat) {
    forall i :: j <= i < |m| && SamePositionRun(m, mi, site, j, i)
                && Compatible(ReadRecord(m[i], mi).value.ref, ReadRecord(m[i], mi).value.alt, site.ref, site.alt)
                ==> EncodeSamples(Tail(m[i], mi.sample)).Some?
  }

  /**
   * When the last modern position parses and the run's compatible records
   * encode, the scan writes all of the reference: each compatible record at
   * the archaic position is joined, even after incompatible ones (a split
   * multi-allelic site).
   */
  lemma {:induction false} ScanJoinsCompatible(m: seq<Row>, mi: ColumnIndex, site: Site, j: nat)
    requires LastPos(m, mi).Some? && RunEncodes(m, mi, site, j)
    ensures Scan(m, mi, site, j).rows == RunJoins(m, mi, site, j)
    decreases |m| - j
  {
    if j < |m| {
      var rec, p := ReadRecord(m[j], mi), ParseNat(site.pos);
      if rec.Some? && p.Some? && rec.value.pos == p.value {
        assert SamePositionRun(m, mi, site, j, j);
        forall i | j + 1 <= i && SamePositionRun(m, mi, site, j + 1, i)
          ensures SamePositionRun(m, mi, site, j, i)
        {
        }
        assert RunEncodes(m, mi, site, j + 1);
        ScanJoinsCompatible(m, mi, site, j + 1);
      }
    }
  }

  /** The joined row record `i` would give. */
  function JoinedRowOf(m: seq<Row>, mi: ColumnIndex, site: Site, i: nat): Row {
    if i < |m| && ReadRecord(m[i], mi).Some? && EncodeSamples(Tail(m[i], mi.sample)).Some? then
      JoinedRow(site.chrom, site.pos, site.ref, ReadRecord(m[i], mi).value.alt, site.geno,
                EncodeSamples(Tail(m[i], mi.sample)).value)
    else []
  }

  // ---------------------------------------------------------------------
  // When the merge returns True

  /** Every archaic data row can be read and its position parsed. */
  predicate WellFormedArchaic(a: ArchaicVcf) {
    forall k :: 1 <= k < |a.text| ==>
      ReadSite(a.text[k], a.index).Some? && ParseNat(ReadSite(a.text[k], a.index).value.pos).Some?
  }

  lemma {:induction false} ScanSucceeds(m: seq<Row>, mi: ColumnIndex, site: Site, j: nat)
    requires 1 <= j && 2 <= |m| && ParseNat(site.pos).Some?
    requires forall i :: 1 <= i < |m| ==> ReadRecord(m[i], mi).Some? && EncodeSamples(Tail(m[i], mi.sample)).Some?
    ensures Scan(m, mi, site, j).ok
    decreases |m| - j
  {
    assert ReadRecord(m[|m| - 1], mi).Some?;
    if j < |m| {
      ScanSucceeds(m, mi, site, j + 1);
    }
  }

  lemma {:induction false} RunSucceeds(arch: ArchaicVcf, modern: ModernVcf, header: Row, k: nat)
    requires 1 <= k <= |arch.text|
    requires WellFormedArchaic(arch) && WellFormedModern(modern)
    ensures Run(arch, modern, header, k).ok
    decreases k
  {
    if k > 1 {
      RunSucceeds(arch, modern, header, k - 1);
      RunCursor(arch, modern, header, k - 1);
      var s := Run(arch, modern, header, k - 1);
      var site := ReadSite(arch.text[k - 1], arch.index);
      assert site.Some?;
      if !IsPrivate(site.value, modern) && s.seek < |modern.text| - 1 {
        ScanSucceeds(modern.text, modern.index, site.value, s.seek);
      }
    }
  }

  /**
   * With the output header readable and every row well formed, nothing
   * raises and the merge returns True; it returns False only through an
   * exception.
   */
  lemma MergeSucceeds(arch: ArchaicVcf, modern: ModernVcf)
    requires Prelude(arch, modern).Some? && WellFormedArchaic(arch) && WellFormedModern(modern)
    ensures Outcome(arch, modern).ok
    ensures |Outcome(arch, modern).out| >= 1
            && Outcome(arch, modern).out[0] == OutputHeader(arch.name, SampleNames(modern))
  {
    RunSucceeds(arch, modern, Prelude(arch, modern).value, |arch.text|);
    RunKeepsHeader(arch, modern, Prelude(arch, modern).value, |arch.text|);
  }

  /** The output always begins with the header row and only grows. */
  lemma {:induction false} RunKeepsHeader(arch: ArchaicVcf, modern: ModernVcf, header: Row, k: nat)
    requires 1 <= k <= |arch.text|
    ensures |Run(arch, modern, header, k).out| >= 1 && Run(arch, modern, header, k).out[0] == header
    decreases k
  {
    if k > 1 {
      RunKeepsHeader(arch, modern, header, k - 1);
    }
  }

  /**
   * The output file is named after the first data row's chromosome, so the
   * merge writes nothing, not even the header, exactly when that cell (or
   * the modern header line) cannot be read.
   */
  lemma NothingWrittenWithoutChrom(arch: ArchaicVcf, modern: ModernVcf)
    requires 1 <= |arch.text|
    ensures Outcome(arch, modern).out == [] <==> GetChrom(arch).None? || |modern.text| == 0
    ensures GetChrom(arch).None? ==> !Outcome(arch, modern).ok
  {
    if GetChrom(arch).Some? && |modern.text| > 0 {
      RunKeepsHeader(arch, modern, Prelude(arch, modern).value, |arch.text|);
    }
  }

  // ---------------------------------------------------------------------
  // The scan guard

  /**
   * As written, the guard `seek < len(modern) - 1` never lets a scan start at
   * the last modern row: once the cursor is there, a site that is not private
   * writes nothing, even when that record lies at its position with
   * compatible alleles. With a single modern data row nothing ever joins.
   */
  lemma LastRecordDropped(s: MergeState, row: Row, arch: ArchaicVcf, modern: ModernVcf)
    requires s.ok && 2 <= |modern.text| && s.seek == |modern.text| - 1
    requires ReadSite(row, arch.index).Some? && !IsPrivate(ReadSite(row, arch.index).value, modern)
    requires var site := ReadSite(row, arch.index).value;
             SamePositionRun(modern.text, modern.index, site, s.seek, s.seek)
             && JoinedFrom(modern.text, modern.index, site, s.seek, JoinedRowOf(modern.text, modern.index, site, s.seek))
    ensures Step(s, row, arch, modern) == s
  {
  }

  /** The guard as evidently intended, `seek < len(modern)`: a scan may start at the last modern row. */
  function IntendedStep(s: MergeState, row: Row, arch: ArchaicVcf, modern: ModernVcf): (t: MergeState) {
    if s.ok && s.seek == |modern.text| - 1 && ReadSite(row, arch.index).Some?
       && !IsPrivate(ReadSite(row, arch.index).value, modern)
    then ScanStep(s, ReadSite(row, arch.index).value, modern)
    else Step(s, row, arch, modern)
  }

  /**
   * With the intended guard, a record at the cursor that lies at the site's
   * position with compatible alleles is joined, the last modern row included,
   * as the first row written (the scan reads the last modern
   * position too, so that row must be readable).
   */
  lemma IntendedJoinsAtCursor(s: MergeState, row: Row, arch: ArchaicVcf, modern: ModernVcf)
    requires s.ok && 1 <= s.seek < |modern.text| && LastPos(modern.text, modern.index).Some?
    requires ReadSite(row, arch.index).Some? && !IsPrivate(ReadSite(row, arch.index).value, modern)
    requires var site := ReadSite(row, arch.index).value;
             SamePositionRun(modern.text, modern.index, site, s.seek, s.seek)
             && JoinedFrom(modern.text, modern.index, site, s.seek, JoinedRowOf(modern.text, modern.index, site, s.seek))
    ensures var site := ReadSite(row, arch.index).value;
            var t := IntendedStep(s, row, arch, modern);
            |t.out| > |s.out| && t.out[..|s.out|] == s.out
            && t.out[|s.out|] == JoinedRowOf(modern.text, modern.index, site, s.seek)
  {
    var site := ReadSite(row, arch.index).value;
    assert IntendedStep(s, row, arch, modern) == ScanStep(s, site, modern);
    ScanJoinsRun(modern.text, modern.index, site, s.seek, s.seek + 1);
  }

  // ---------------------------------------------------------------------
  // A smaller record ends the scan

  /** The header row of the worked example below: one modern sample, `S`. */
  const ExampleHeader: Row := ["#CHROM", "POS", "REF", "ALT", "FORMAT", "S"]
  const ExampleIndex: ColumnIndex := ColumnIndex(0, 1, 2, 3, 5)

  lemma Parses100To300()
    ensures ParseNat("100") == Some(100) && ParseNat("200") == Some(200) && ParseNat("300") == Some(300)
  {
    assert Decimal(1) == "1";
    assert Decimal(10) == Decimal(1) + ['0'];
    assert Decimal(100) == Decimal(10) + ['0'];
    assert Decimal(100) == "100";
    assert Decimal(2) == "2";
    assert Decimal(20) == Decimal(2) + ['0'];
    assert Decimal(200) == Decimal(20) + ['0'];
    assert Decimal(200) == "200";
    assert Decimal(3) == "3";
    assert Decimal(30) == Decimal(3) + ['0'];
    assert Decimal(300) == Decimal(30) + ['0'];
    assert Decimal(300) == "300";
    ParseDecimal(100);
    ParseDecimal(200);
    ParseDecimal(300);
  }

  /**
   * Sorted files where both archaic sites have a compatible modern record:
   * modern `100`, `200`, `300` (`G C`, `0/1`), archaic `100`, `200` (`G C`, `1/1`).
   * After the join at 100 the cursor stays on the record at 100; at site 200
   * the scan moves one step past it and stops, so the record at 200, which
   * would join, is never reached and the output holds the header and the
   * join at 100 only.
   */
  lemma LaggingCursorMissesJoin()
    ensures var m := [ExampleHeader, ["1", "100", "G", "C", ".", "0/1"], ["1", "200", "G", "C", ".", "0/1"],
                      ["1", "300", "G", "C", ".", "0/1"]];
            var modern := ModernVcf(m, ExampleIndex, {"100", "200", "300"});
            var arch := ArchaicVcf([ExampleHeader, ["1", "100", "G", "C", ".", "1/1"], ["1", "200", "G", "C", ".", "1/1"]],
                                   ExampleIndex, "S");
            RunJoins(m, ExampleIndex, Site("1", "200", "G", "C", "2"), 2) == [JoinedRow("1", "200", "G", "C", "2", ["1"])]
            && Outcome(arch, modern)
               == MergeState(true, 2, [OutputHeader("S", ["S"]), JoinedRow("1", "100", "G", "C", "2", ["1"])])
  {
    var m := [ExampleHeader, ["1", "100", "G", "C", ".", "0/1"], ["1", "200", "G", "C", ".", "0/1"],
              ["1", "300", "G", "C", ".", "0/1"]];
    var modern := ModernVcf(m, ExampleIndex, {"100", "200", "300"});
    var a := [ExampleHeader, ["1", "100", "G", "C", ".", "1/1"], ["1", "200", "G", "C", ".", "1/1"]];
    var arch := ArchaicVcf(a, ExampleIndex, "S");
    Parses100To300();
    assert Diploid("1/1") && Diploid("0/1");
    assert AlleleSum("1/1") == 2 && AlleleSum("0/1") == 1;
    assert Decimal(2) == "2" && Decimal(1) == "1";
    var site1 := ReadSite(a[1], ExampleIndex).value;
    var site2 := ReadSite(a[2], ExampleIndex).value;
    assert site1 == Site("1", "100", "G", "C", "2") && site2 == Site("1", "200", "G", "C", "2");
    assert !IsPrivate(site1, modern) && !IsPrivate(site2, modern);
    assert LastPos(m, ExampleIndex) == Some(300);
    assert Tail(m[1], 5) == ["0/1"] && Tail(m[2], 5) == ["0/1"];
    assert EncodeModern("0/1") == Some("1");
    var counts := EncodeSamples(["0/1"]);
    assert counts.Some? && |counts.value| == 1 && counts.value[0] == "1";
    assert counts.value == ["1"];
    assert counts == Some(["1"]);
    var hdr := OutputHeader("S", ["S"]);
    var join100 := JoinedRow("1", "100", "G", "C", "2", ["1"]);
    assert Scan(m, ExampleIndex, site1, 2) == ScanResult(true, false, []);
    assert Scan(m, ExampleIndex, site1, 1) == ScanResult(true, false, [join100]);
    assert Run(arch, modern, hdr, 2) == MergeState(true, 1, [hdr, join100]);
    assert Scan(m, ExampleIndex, site2, 1) == ScanResult(true, true, []);
    assert Run(arch, modern, hdr, 3) == MergeState(true, 2, [hdr, join100]);
    assert SampleNames(modern) == ["S"];
    assert RunJoins(m, ExampleIndex, site2, 3) == [];
  }
}
