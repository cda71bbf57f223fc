/**
 * The buffered-reader version. Its reader keeps the non-`##` lines up to and
 * including the first "#CHROM" line and stops there. Its merge checks that
 * the first data rows of both files name the same chromosome, skips archaic
 * sites that are not single-base, tests the integer position against the
 * pool of position strings, and moves the cursor past every modern record
 * with a smaller position, stopping at the first greater one.
 */
module VcfBuffered {
  import opened VcfCommon

  /** An archaic file object: its loaded text and column map. */
  datatype ArchaicVcf = ArchaicVcf(text: seq<Row>, index: ColumnIndex)

  // ---------------------------------------------------------------------
  // Reading the header

  /** The lines the reader keeps: every non-`##` line up to and including the first header line. */
  function HeaderLines(lines: seq<Row>): seq<Row>
    decreases |lines|
  {
    if |lines| == 0 then []
    else if IsComment(lines[0]) then HeaderLines(lines[1..])
    else if IsHeader(lines[0]) then [lines[0]]
    else [lines[0]] + HeaderLines(lines[1..])
  }

  /**
   * `_set_vcftext`: skip `##` lines, keep the others, and stop right after
   * the first "#CHROM" line. (The source also counts the skipped lines but
   * never uses the count.)
   */
  method ReadHeader(lines: seq<Row>) returns (vcfLines: seq<Row>)
    ensures vcfLines == HeaderLines(lines)
  {
    vcfLines := [];
    var i := 0;
    while i < |lines|
      invariant i <= |lines|
      invariant vcfLines + HeaderLines(lines[i..]) == HeaderLines(lines)
    {
      assert lines[i..][1..] == lines[i + 1..];
      if IsComment(lines[i]) {
      } else if IsHeader(lines[i]) {
        vcfLines := vcfLines + [lines[i]];
        break;
      } else {
        vcfLines := vcfLines + [lines[i]];
      }
      i := i + 1;
    }
  }

  /** The reader keeps no `##` line, and a header line only in last place. */
  lemma {:induction false} HeaderLinesClean(lines: seq<Row>)
    ensures forall k :: 0 <= k < |HeaderLines(lines)| ==> !IsComment(HeaderLines(lines)[k])
    ensures forall k :: 0 <= k < |HeaderLines(lines)| - 1 ==> !IsHeader(HeaderLines(lines)[k])
    decreases |lines|
  {
    if |lines| > 0 {
      HeaderLinesClean(lines[1..]);
      if !IsComment(lines[0]) && !IsHeader(lines[0]) {
        var rest := HeaderLines(lines[1..]);
        assert HeaderLines(lines) == [lines[0]] + rest;
        assert forall k :: 1 <= k < |rest| + 1 ==> HeaderLines(lines)[k] == rest[k - 1];
      }
    }
  }

  /**
   * When a header line exists the reader stops on it: it is the last line
   * kept, and when only `##` lines precede it, it is the only line kept, so
   * no data row is ever loaded.
   */
  lemma {:induction false} HeaderLinesStop(lines: seq<Row>)
    requires FirstHeader(lines).Some?
    ensures |HeaderLines(lines)| > 0
    ensures HeaderLines(lines)[|HeaderLines(lines)| - 1] == lines[FirstHeader(lines).value]
    ensures (forall k :: 0 <= k < FirstHeader(lines).value ==> IsComment(lines[k])) ==>
              HeaderLines(lines) == [lines[FirstHeader(lines).value]]
    decreases |lines|
  {
    var h := FirstHeader(lines).value;
    CommentIsNotHeader(lines[0]);
    if h > 0 {
      assert FirstHeader(lines[1..]) == Some(h - 1);
      HeaderLinesStop(lines[1..]);
      var rest := HeaderLines(lines[1..]);
      if IsComment(lines[0]) {
        assert HeaderLines(lines) == rest;
        assert forall k :: 0 <= k < h - 1 ==> lines[1..][k] == lines[k + 1];
      } else {
        assert HeaderLines(lines) == [lines[0]] + rest;
      }
    }
  }

  // ---------------------------------------------------------------------
  // Building the file objects

  /**
   * `MODERNVCF.__init__`: read the header lines, resolve the first one and
   * collect the POS column of every later line into the pool.
   */
  method OpenModern(lines: seq<Row>) returns (r: Result<ModernVcf>)
    ensures HeaderLines(lines) == [] ==> r == Err(EmptyText)
    ensures HeaderLines(lines) != [] && Resolve(HeaderLines(lines)[0]).Err? ==>
              r == Err(Resolve(HeaderLines(lines)[0]).error)
    ensures r.Ok? ==> r.value.text == HeaderLines(lines) && |r.value.text| > 0
                      && Resolve(r.value.text[0]) == Ok(r.value.index)
                      && (forall s :: s in r.value.pool <==>
                            exists i :: 1 <= i < |r.value.text| && r.value.index.pos < |r.value.text[i]|
                                        && r.value.text[i][r.value.index.pos] == s)
    ensures r.Ok? <==> HeaderLines(lines) != [] && Resolve(HeaderLines(lines)[0]).Ok?
                       && DataRowsReach(HeaderLines(lines), Resolve(HeaderLines(lines)[0]).value.pos)
    ensures r == Err(ShortRow) <==> HeaderLines(lines) != [] && Resolve(HeaderLines(lines)[0]).Ok?
                                    && !DataRowsReach(HeaderLines(lines), Resolve(HeaderLines(lines)[0]).value.pos)
  {
    var text := ReadHeader(lines);
    if text == [] {
      return Err(EmptyText);
    }
    var index := Resolve(text[0]);
    if index.Err? {
      return Err(index.error);
    }
    var pool := CollectPool(text, index.value.pos);
    if pool.None? {
      return Err(ShortRow);
    }
    return Ok(ModernVcf(text, index.value, pool.value));
  }

  /** `ARCHAICVCF.__init__`: read the header lines and resolve the first one. */
  method OpenArchaic(lines: seq<Row>) returns (r: Result<ArchaicVcf>)
    ensures HeaderLines(lines) == [] ==> r == Err(EmptyText)
    ensures HeaderLines(lines) != [] && Resolve(HeaderLines(lines)[0]).Err? ==>
              r == Err(Resolve(HeaderLines(lines)[0]).error)
    ensures r.Ok? ==> r.value.text == HeaderLines(lines) && |r.value.text| > 0
                      && Resolve(r.value.text[0]) == Ok(r.value.index)
    ensures r.Ok? <==> HeaderLines(lines) != [] && Resolve(HeaderLines(lines)[0]).Ok?
  {
    var text := ReadHeader(lines);
    if text == [] {
      return Err(EmptyText);
    }
    var index := Resolve(text[0]);
    if index.Err? {
      return Err(index.error);
    }
    return Ok(ArchaicVcf(text, index.value));
  }

  /** `MODERNVCF.get`: the keys the modern index map holds. */
  function ModernGet(m: ModernVcf, key: string): (r: Result<HeaderValue>)
    ensures r.Ok? <==> key in {"chrom", "pos", "ref", "alt", "sample"}
    ensures r.Err? ==> r.error == UnknownKey(key)
    ensures key == "chrom" ==> r == Ok(Column(m.index.chrom))
    ensures key == "pos" ==> r == Ok(Column(m.index.pos))
    ensures key == "ref" ==> r == Ok(Column(m.index.ref))
    ensures key == "alt" ==> r == Ok(Column(m.index.alt))
    ensures key == "sample" ==> r == Ok(Column(m.index.sample))
  {
    Get(Entries(m.index, "sample"), key)
  }

  /** `ARCHAICVCF.get`: the keys the archaic index map holds. */
  function ArchaicGet(a: ArchaicVcf, key: string): (r: Result<HeaderValue>)
    ensures r.Ok? <==> key in {"chrom", "pos", "ref", "alt", "archaic"}
    ensures r.Err? ==> r.error == UnknownKey(key)
    ensures key == "chrom" ==> r == Ok(Column(a.index.chrom))
    ensures key == "pos" ==> r == Ok(Column(a.index.pos))
    ensures key == "ref" ==> r == Ok(Column(a.index.ref))
    ensures key == "alt" ==> r == Ok(Column(a.index.alt))
    ensures key == "archaic" ==> r == Ok(Column(a.index.sample))
  {
    Get(Entries(a.index, "archaic"), key)
  }

  // ---------------------------------------------------------------------
  // The merge (`ARCHAICVCF.__add__`), as specification functions

  /** Every cell the opening of the merge reads exists. */
  predicate Readable(a: ArchaicVcf, m: ModernVcf) {
    2 <= |a.text| && 2 <= |m.text| && a.index.sample < |a.text[0]|
    && a.index.chrom < |a.text[1]| && a.index.chrom < |m.text[1]|
  }

  /**
   * The chromosome check: the first data row of each file, both read with
   * the archaic chromosome column.
   */
  predicate SameChromosome(a: ArchaicVcf, m: ModernVcf)
    requires Readable(a, m)
  {
    a.text[1][a.index.chrom] == m.text[1][a.index.chrom]
  }

  /** The chromosome written on every output row: the first archaic data row's. */
  function Chrom(a: ArchaicVcf): string
    requires 2 <= |a.text| && a.index.chrom < |a.text[1]|
  {
    a.text[1][a.index.chrom]
  }

  /** The output header, or None when the opening raises or the chromosomes differ. */
  function Opening(a: ArchaicVcf, m: ModernVcf): (header: Option<Row>) {
    if Readable(a, m) && SameChromosome(a, m) then Some(OutputHeader(a.text[0][a.index.sample], SampleNames(m)))
    else None
  }

  /** An archaic row's position (parsed), REF and ALT; None where reading raises. */
  datatype Site = Site(pos: nat, ref: string, alt: string)

  function ReadSite(row: Row, ix: ColumnIndex): (r: Option<Site>)
    ensures r.Some? <==> ix.pos < |row| && ParseNat(row[ix.pos]).Some? && ix.ref < |row| && ix.alt < |row|
    ensures r.Some? ==> r.value == Site(ParseNat(row[ix.pos]).value, row[ix.ref], row[ix.alt])
  {
    if ix.pos < |row| && ix.ref < |row| && ix.alt < |row| then
      match ParseNat(row[ix.pos])
      case None => None
      case Some(p) => Some(Site(p, row[ix.ref], row[ix.alt]))
    else None
  }

  /** A single-base site: REF and ALT are one character each. */
  predicate IsSnp(site: Site) {
    |site.ref| == 1 && |site.alt| == 1
  }

  /** The archaic genotype of a row; None where indexing raises. */
  function ArchaicGenotype(row: Row, ix: ColumnIndex): (g: Option<string>) {
    if ix.sample < |row| then EncodeArchaic(row[ix.sample]) else None
  }

  /** The pool test as written: the parsed integer position against a set of strings. */
  predicate InPool(pos: nat, pool: set<string>) {
    PyIn(PyInt(pos), pool)
  }

  /** What one inner scan did: finished normally, records skipped, rows written. */
  datatype ScanResult = ScanResult(ok: bool, skipped: nat, rows: seq<Row>)

  function Prepend(rows: seq<Row>, r: ScanResult): ScanResult {
    ScanResult(r.ok, r.skipped, rows + r.rows)
  }

  function Skip(r: ScanResult): ScanResult {
    ScanResult(r.ok, r.skipped + 1, r.rows)
  }

  /** The inner `for md_line in modern[j:]` loop from record `j` on. */
  function Scan(m: seq<Row>, mi: ColumnIndex, chrom: string, site: Site, geno: string, j: nat): (sc: ScanResult)
    decreases |m| - j
  {
    if j >= |m| then ScanResult(true, 0, [])
    else match ReadRecord(m[j], mi)
      case None => ScanResult(false, 0, [])
      case Some(rec) =>
        if site.pos > rec.pos then Skip(Scan(m, mi, chrom, site, geno, j + 1))
        else if site.pos == rec.pos then
          if Compatible(rec.ref, rec.alt, site.ref, site.alt) then
            match EncodeSamples(Tail(m[j], mi.sample))
            case None => ScanResult(false, 0, [])
            case Some(counts) =>
              Prepend([JoinedRow(chrom, Decimal(site.pos), site.ref, rec.alt, geno, counts)],
                      Scan(m, mi, chrom, site, geno, j + 1))
          else Scan(m, mi, chrom, site, geno, j + 1)
        else ScanResult(true, 0, [])
  }

  /** One archaic row: the SNP filter, the private short-circuit, or a guarded scan. */
  function Step(s: MergeState, row: Row, a: ArchaicVcf, m: ModernVcf, chrom: string): (t: MergeState) {
    if !s.ok then s
    else match ReadSite(row, a.index)
      case None => MergeState(false, s.seek, s.out)
      case Some(site) =>
        if !IsSnp(site) then s
        else match ArchaicGenotype(row, a.index)
          case None => MergeState(false, s.seek, s.out)
          case Some(g) =>
            if g != "0" && !InPool(site.pos, m.pool) then
              MergeState(true, s.seek,
                         s.out + [PrivateRow(chrom, Decimal(site.pos), site.ref, site.alt, g, |SampleNames(m)|)])
            else if s.seek < |m.text| - 1 then
              var sc := Scan(m.text, m.index, chrom, site, g, s.seek);
              MergeState(sc.ok, s.seek + sc.skipped, s.out + sc.rows)
            else s
  }

  /** The state after the header and archaic rows 1 .. k-1. */
  function Run(a: ArchaicVcf, m: ModernVcf, chrom: string, header: Row, k: nat): (s: MergeState)
    requires 1 <= k <= |a.text|
    decreases k
  {
    if k == 1 then MergeState(true, 1, [header])
    else Step(Run(a, m, chrom, header, k - 1), a.text[k - 1], a, m, chrom)
  }

  /** The whole merge: whether it returns (rather than raising or exiting) and the rows it wrote. */
  function Outcome(a: ArchaicVcf, m: ModernVcf): (s: MergeState) {
    match Opening(a, m)
    case None => MergeState(false, 1, [])
    case Some(header) => Run(a, m, Chrom(a), header, |a.text|)
  }

  // ---------------------------------------------------------------------
  // The merge as the source runs it

  /** The inner scan loop: the cursor moves past each smaller record. */
  method ScanModern(m: seq<Row>, mi: ColumnIndex, chrom: string, site: Site, geno: string, seek: nat)
    returns (ok: bool, seek': nat, rows: seq<Row>)
    ensures seek <= seek'
    ensures ScanResult(ok, seek' - seek, rows) == Scan(m, mi, chrom, site, geno, seek)
  {
    rows := [];
    seek' := seek;
    var j := seek;
    while j < |m|
      invariant seek <= j && seek <= seek'
      invariant Scan(m, mi, chrom, site, geno, seek)
                == Prepend(rows, ScanResult(Scan(m, mi, chrom, site, geno, j).ok,
                                            Scan(m, mi, chrom, site, geno, j).skipped + (seek' - seek),
                                            Scan(m, mi, chrom, site, geno, j).rows))
      decreases |m| - j
    {
      var rec := ReadRecord(m[j], mi);
      if rec.None? {
        return false, seek', rows;
      }
      if site.pos > rec.value.pos {
        seek' := seek' + 1;
      } else if site.pos == rec.value.pos {
        if Compatible(rec.value.ref, rec.value.alt, site.ref, site.alt) {
          var counts := EncodeSamples(Tail(m[j], mi.sample));
          if counts.None? {
            return false, seek', rows;
          }
          rows := rows + [JoinedRow(chrom, Decimal(site.pos), site.ref, rec.value.alt, geno, counts.value)];
        }
      } else {
        break;
      }
      j := j + 1;
    }
    return true, seek', rows;
  }

  /** The body of the outer loop: one archaic row against the modern rows. */
  method MergeRow(row: Row, a: ArchaicVcf, m: ModernVcf, chrom: string, seek: nat, out: seq<Row>)
    returns (ok: bool, seek': nat, out': seq<Row>)
    ensures MergeState(ok, seek', out') == Step(MergeState(true, seek, out), row, a, m, chrom)
  {
    var site := ReadSite(row, a.index);
    if site.None? {
      return false, seek, out;
    }
    var s := site.value;
    if !IsSnp(s) {
      return true, seek, out;
    }
    var g := ArchaicGenotype(row, a.index);
    if g.None? {
      return false, seek, out;
    }
    ok, seek', out' := true, seek, out;
    if g.value != "0" && !InPool(s.pos, m.pool) {
      out' := out + [PrivateRow(chrom, Decimal(s.pos), s.ref, s.alt, g.value, |SampleNames(m)|)];
    } else if seek < |m.text| - 1 {
      var rows;
      ok, seek', rows := ScanModern(m.text, m.index, chrom, s, g.value, seek);
      out' := out + rows;
    }
  }

  lemma {:induction false} RunStaysFailed(a: ArchaicVcf, m: ModernVcf, chrom: string, header: Row, k: nat, k': nat)
    requires 1 <= k <= k' <= |a.text|
    requires !Run(a, m, chrom, header, k).ok
    ensures Run(a, m, chrom, header, k') == Run(a, m, chrom, header, k)
    decreases k'
  {
    if k' > k {
      RunStaysFailed(a, m, chrom, header, k, k' - 1);
    }
  }

  /**
   * `ARCHAICVCF.__add__`: check the chromosomes, write the output header,
   * then walk the archaic rows; any exception ends the run.
   */
  method Merge(a: ArchaicVcf, m: ModernVcf) returns (ok: bool, out: seq<Row>)
    ensures ok == Outcome(a, m).ok && out == Outcome(a, m).out
  {
    var header := Opening(a, m);
    if header.None? {
      return false, [];
    }
    var chrom := Chrom(a);
    out := [header.value];
    var seek := 1;
    var k := 1;
    while k < |a.text|
      invariant 1 <= k <= |a.text|
      invariant Run(a, m, chrom, header.value, k) == MergeState(true, seek, out)
    {
      ok, seek, out := MergeRow(a.text[k], a, m, chrom, seek, out);
      if !ok {
        RunStaysFailed(a, m, chrom, header.value, k + 1, |a.text|);
        return false, out;
      }
      k := k + 1;
    }
    return true, out;
  }

  // ---------------------------------------------------------------------
  // Properties of the merge

  /** A row whose REF or ALT is longer than one base is passed over: nothing is written and the cursor stays. */
  lemma NonSnpSkipped(s: MergeState, row: Row, a: ArchaicVcf, m: ModernVcf, chrom: string)
    requires s.ok && ReadSite(row, a.index).Some? && !IsSnp(ReadSite(row, a.index).value)
    ensures Step(s, row, a, m, chrom) == s
  {
  }

  /**
   * The pool test as written never succeeds, since an integer is never equal
   * to a string: every single-base site with a non-zero call is written as
   * private, even when the modern file holds a record at that very position,
   * and the modern file is scanned only for calls of "0". The position written
   * is the decimal form of the parsed one and reads back as it.
   */
  lemma PrivateIgnoresPool(s: MergeState, row: Row, a: ArchaicVcf, m: ModernVcf, chrom: string)
    requires s.ok && ReadSite(row, a.index).Some? && IsSnp(ReadSite(row, a.index).value)
    requires ArchaicGenotype(row, a.index).Some? && ArchaicGenotype(row, a.index).value != "0"
    ensures var site := ReadSite(row, a.index).value;
            var t := Step(s, row, a, m, chrom);
            var n := |s.out|;
            t.ok && t.seek == s.seek && |t.out| == n + 1 && t.out[..n] == s.out
            && t.out[n] == PrivateRow(chrom, Decimal(site.pos), site.ref, site.alt,
                                      ArchaicGenotype(row, a.index).value, |SampleNames(m)|)
            && ParseNat(t.out[n][1]) == Some(site.pos)
    ensures !InPool(ReadSite(row, a.index).value.pos, m.pool)
  {
    ParseDecimal(ReadSite(row, a.index).value.pos);
  }

  /** The position of a readable modern record. */
  function PosAt(m: seq<Row>, mi: ColumnIndex, i: nat): nat
    requires i < |m| && ReadRecord(m[i], mi).Some?
  {
    ReadRecord(m[i], mi).value.pos
  }

  /** The modern records from `j` on can all be read and are in position order. */
  predicate SortedFrom(m: seq<Row>, mi: ColumnIndex, j: nat) {
    (forall i :: j <= i < |m| ==> ReadRecord(m[i], mi).Some?)
    && forall i, i' :: j <= i < i' < |m| ==> PosAt(m, mi, i) <= PosAt(m, mi, i')
  }

  /** A scan never moves the cursor past the end of the modern rows. */
  lemma {:induction false} ScanSkipBound(m: seq<Row>, mi: ColumnIndex, chrom: string, site: Site, geno: string, j: nat)
    ensures j + Scan(m, mi, chrom, site, geno, j).skipped <= if j <= |m| then |m| else j
    decreases |m| - j
  {
    if j < |m| {
      ScanSkipBound(m, mi, chrom, site, geno, j + 1);
    }
  }

  /** From a record at or after the archaic position, a sorted scan moves the cursor no further. */
  lemma {:induction false} ScanNoSkip(m: seq<Row>, mi: ColumnIndex, chrom: string, site: Site, geno: string, j: nat)
    requires SortedFrom(m, mi, j)
    requires j < |m| ==> site.pos <= PosAt(m, mi, j)
    ensures Scan(m, mi, chrom, site, geno, j).skipped == 0
    decreases |m| - j
  {
    if j + 1 < |m| {
      assert PosAt(m, mi, j) <= PosAt(m, mi, j + 1);
      ScanNoSkip(m, mi, chrom, site, geno, j + 1);
    }
  }

  /**
   * On a modern file sorted by position, the cursor lands on the first
   * record at or after the archaic position: every record it moves past lies
   * before it, and, when the scan finishes, the record it stops on does not.
   */
  lemma {:induction false} ScanLands(m: seq<Row>, mi: ColumnIndex, chrom: string, site: Site, geno: string, j: nat)
    requires j <= |m| && SortedFrom(m, mi, j)
    ensures var r := Scan(m, mi, chrom, site, geno, j);
            j + r.skipped <= |m|
            && (forall i :: j <= i < j + r.skipped ==> PosAt(m, mi, i) < site.pos)
            && (r.ok && j + r.skipped < |m| ==> site.pos <= PosAt(m, mi, j + r.skipped))
    decreases |m| - j
  {
    if j < |m| {
      if site.pos > PosAt(m, mi, j) {
        ScanLands(m, mi, chrom, site, geno, j + 1);
      } else {
        ScanNoSkip(m, mi, chrom, site, geno, j);
      }
    }
  }

  /**
   * The reference for what a scan writes: the joined row of every record
   * from `j` on at the archaic position with compatible alleles, in file order.
   */
  function Matches(m: seq<Row>, mi: ColumnIndex, chrom: string, site: Site, geno: string, j: nat): (rows: seq<Row>)
    decreases |m| - j
  {
    if j >= |m| then []
    else
      var here :=
        match ReadRecord(m[j], mi)
        case Some(rec) =>
          if rec.pos == site.pos && Compatible(rec.ref, rec.alt, site.ref, site.alt)
             && EncodeSamples(Tail(m[j], mi.sample)).Some?
          then [JoinedRow(chrom, Decimal(site.pos), site.ref, rec.alt, geno, EncodeSamples(Tail(m[j], mi.sample)).value)]
          else []
        case None => [];
      here + Matches(m, mi, chrom, site, geno, j + 1)
  }

  /** No record from `j` on lies at the archaic position once a sorted file has passed it. */
  lemma {:induction false} MatchesPassed(m: seq<Row>, mi: ColumnIndex, chrom: string, site: Site, geno: string, j: nat)
    requires SortedFrom(m, mi, j)
    requires j < |m| ==> site.pos < PosAt(m, mi, j)
    ensures Matches(m, mi, chrom, site, geno, j) == []
    decreases |m| - j
  {
    if j + 1 < |m| {
      assert PosAt(m, mi, j) <= PosAt(m, mi, j + 1);
      MatchesPassed(m, mi, chrom, site, geno, j + 1);
    }
  }

  /**
   * On a sorted modern file whose sample tokens are all readable, a scan
   * finishes and writes exactly the reference rows: every compatible record
   * at the archaic position, and nothing else.
   */
  lemma {:induction false} ScanWritesMatches(m: seq<Row>, mi: ColumnIndex, chrom: string, site: Site, geno: string, j: nat)
    requires SortedFrom(m, mi, j)
    requires forall i :: j <= i < |m| ==> EncodeSamples(Tail(m[i], mi.sample)).Some?
    ensures Scan(m, mi, chrom, site, geno, j).ok
    ensures Scan(m, mi, chrom, site, geno, j).rows == Matches(m, mi, chrom, site, geno, j)
    decreases |m| - j
  {
    if j < |m| {
      if site.pos < PosAt(m, mi, j) {
        MatchesPassed(m, mi, chrom, site, geno, j);
      } else {
        ScanWritesMatches(m, mi, chrom, site, geno, j + 1);
      }
    }
  }

  /** The largest value the cursor can take. */
  function SeekBound(m: ModernVcf): nat {
    if |m.text| >= 1 then |m.text| else 1
  }

  /**
   * One archaic row never moves the cursor back nor past the end of the
   * modern rows, and moves it only through a scan the guard let run. Once
   * the cursor is at the last modern row no scan happens.
   */
  lemma StepCursor(s: MergeState, row: Row, a: ArchaicVcf, m: ModernVcf, chrom: string)
    requires s.ok && s.seek <= SeekBound(m)
    ensures var t := Step(s, row, a, m, chrom);
            s.seek <= t.seek <= SeekBound(m)
            && (t.seek != s.seek ==> s.seek < |m.text| - 1)
    ensures s.seek >= |m.text| - 1 ==>
              Step(s, row, a, m, chrom).seek == s.seek && |Step(s, row, a, m, chrom).out| <= |s.out| + 1
    ensures s.seek >= |m.text| - 1 ==>
              var t := Step(s, row, a, m, chrom);
              t == s || t == MergeState(false, s.seek, s.out)
              || (ReadSite(row, a.index).Some? && ArchaicGenotype(row, a.index).Some?
                  && t == MergeState(true, s.seek,
                                     s.out + [PrivateRow(chrom, Decimal(ReadSite(row, a.index).value.pos),
                                                         ReadSite(row, a.index).value.ref, ReadSite(row, a.index).value.alt,
                                                         ArchaicGenotype(row, a.index).value, |SampleNames(m)|)]))
  {
    match ReadSite(row, a.index)
    case None =>
    case Some(site) =>
      match ArchaicGenotype(row, a.index)
      case None =>
      case Some(g) =>
        ScanSkipBound(m.text, m.index, chrom, site, g, s.seek);
  }

  /** Over the whole walk the cursor starts at 1, never decreases and stays within the modern rows. */
  lemma {:induction false} RunCursor(a: ArchaicVcf, m: ModernVcf, chrom: string, header: Row, k: nat)
    requires 1 <= k <= |a.text|
    ensures 1 <= Run(a, m, chrom, header, k).seek <= SeekBound(m)
    ensures k < |a.text| ==> Run(a, m, chrom, header, k).seek <= Run(a, m, chrom, header, k + 1).seek
    decreases k
  {
    if k > 1 {
      RunCursor(a, m, chrom, header, k - 1);
      var s := Run(a, m, chrom, header, k - 1);
      if s.ok {
        StepCursor(s, a.text[k - 1], a, m, chrom);
      }
    }
    if k < |a.text| && Run(a, m, chrom, header, k).ok {
      StepCursor(Run(a, m, chrom, header, k), a.text[k], a, m, chrom);
    }
  }

  /** Differing chromosomes end the merge before anything is written. */
  lemma ChromosomeMismatch(a: ArchaicVcf, m: ModernVcf)
    requires Readable(a, m) && !SameChromosome(a, m)
    ensures !Outcome(a, m).ok && Outcome(a, m).out == []
  {
  }

  /** Every archaic data row can be read and its genotype token encoded. */
  predicate WellFormedArchaic(a: ArchaicVcf) {
    forall k :: 1 <= k < |a.text| ==>
      ReadSite(a.text[k], a.index).Some? && ArchaicGenotype(a.text[k], a.index).Some?
  }

  lemma {:induction false} ScanSucceeds(m: seq<Row>, mi: ColumnIndex, chrom: string, site: Site, geno: string, j: nat)
    requires 1 <= j
    requires forall i :: 1 <= i < |m| ==> ReadRecord(m[i], mi).Some? && EncodeSamples(Tail(m[i], mi.sample)).Some?
    ensures Scan(m, mi, chrom, site, geno, j).ok
    decreases |m| - j
  {
    if j < |m| {
      ScanSucceeds(m, mi, chrom, site, geno, j + 1);
    }
  }

  lemma {:induction false} RunSucceeds(a: ArchaicVcf, m: ModernVcf, chrom: string, header: Row, k: nat)
    requires 1 <= k <= |a.text|
    requires WellFormedArchaic(a) && WellFormedModern(m)
    ensures Run(a, m, chrom, header, k).ok
    decreases k
  {
    if k > 1 {
      RunSucceeds(a, m, chrom, header, k - 1);
      RunCursor(a, m, chrom, header, k - 1);
      var s := Run(a, m, chrom, header, k - 1);
      var row := a.text[k - 1];
      assert ReadSite(row, a.index).Some? && ArchaicGenotype(row, a.index).Some?;
      if s.seek < |m.text| - 1 {
        ScanSucceeds(m.text, m.index, chrom, ReadSite(row, a.index).value,
                     ArchaicGenotype(row, a.index).value, s.seek);
      }
    }
  }

  /**
   * When both files agree on the chromosome and every row is well formed,
   * the merge returns True and its output starts with the header; the header
   * is the only row that does not come from an archaic site.
   */
  lemma MergeSucceeds(a: ArchaicVcf, m: ModernVcf)
    requires Readable(a, m) && SameChromosome(a, m) && WellFormedArchaic(a) && WellFormedModern(m)
    ensures Outcome(a, m).ok
    ensures |Outcome(a, m).out| >= 1
            && Outcome(a, m).out[0] == OutputHeader(a.text[0][a.index.sample], SampleNames(m))
  {
    RunSucceeds(a, m, Chrom(a), Opening(a, m).value, |a.text|);
    RunKeepsHeader(a, m, Chrom(a), Opening(a, m).value, |a.text|);
  }

  /** One archaic row only appends to the output. */
  lemma StepExtends(s: MergeState, row: Row, a: ArchaicVcf, m: ModernVcf, chrom: string)
    ensures |Step(s, row, a, m, chrom).out| >= |s.out|
    ensures Step(s, row, a, m, chrom).out[..|s.out|] == s.out
  {
  }

  /** The output always begins with the header row and only grows. */
  lemma {:induction false} RunKeepsHeader(a: ArchaicVcf, m: ModernVcf, chrom: string, header: Row, k: nat)
    requires 1 <= k <= |a.text|
    ensures |Run(a, m, chrom, header, k).out| >= 1 && Run(a, m, chrom, header, k).out[0] == header
    decreases k
  {
    if k > 1 {
      RunKeepsHeader(a, m, chrom, header, k - 1);
      StepExtends(Run(a, m, chrom, header, k - 1), a.text[k - 1], a, m, chrom);
    }
  }

  /**
   * The reader loads the header line and nothing after it, so on a file
   * whose data rows follow the header the loaded text has no data row and
   * the merge raises before writing anything.
   */
  lemma LoadedTextHasNoData(lines: seq<Row>, a: ArchaicVcf, m: ModernVcf)
    requires FirstHeader(lines).Some?
    requires forall k :: 0 <= k < FirstHeader(lines).value ==> IsComment(lines[k])
    requires a.text == HeaderLines(lines)
    ensures |a.text| == 1 && a.text[0] == lines[FirstHeader(lines).value]
    ensures !Outcome(a, m).ok && Outcome(a, m).out == []
  {
    HeaderLinesStop(lines);
  }

  /** A row written for a site: its chromosome, the decimal position, its REF and its archaic count. */
  predicate SiteRow(r: Row, chrom: string, site: Site, geno: string) {
    |r| >= 5 && r[0] == chrom && r[1] == Decimal(site.pos) && r[2] == site.ref && r[4] == geno
  }

  lemma {:induction false} ScanRowsShape(m: seq<Row>, mi: ColumnIndex, chrom: string, site: Site, geno: string, j: nat)
    ensures forall i :: 0 <= i < |Scan(m, mi, chrom, site, geno, j).rows| ==>
              SiteRow(Scan(m, mi, chrom, site, geno, j).rows[i], chrom, site, geno)
    decreases |m| - j
  {
    if j < |m| {
      ScanRowsShape(m, mi, chrom, site, geno, j + 1);
    }
  }

  /**
   * Sorted or not, the rows a scan writes are a prefix of the reference
   * `Matches`: each is the joined row of a compatible record from `j` on at
   * the archaic position, in file order, and none is left out before the
   * scan stops.
   */
  lemma {:induction false} ScanWritesPrefix(m: seq<Row>, mi: ColumnIndex, chrom: string, site: Site, geno: string, j: nat)
    ensures Scan(m, mi, chrom, site, geno, j).rows <= Matches(m, mi, chrom, site, geno, j)
    decreases |m| - j
  {
    if j < |m| {
      ScanWritesPrefix(m, mi, chrom, site, geno, j + 1);
    }
  }

  /**
   * Every row one archaic row adds carries the merge's chromosome, the
   * site's position written in decimal (which reads back as the parsed
   * position), its REF and its archaic count.
   */
  lemma StepRows(s: MergeState, row: Row, a: ArchaicVcf, m: ModernVcf, chrom: string)
    requires s.ok && ReadSite(row, a.index).Some? && ArchaicGenotype(row, a.index).Some?
    ensures var site := ReadSite(row, a.index).value;
            var t := Step(s, row, a, m, chrom);
            |t.out| >= |s.out| && t.out[..|s.out|] == s.out
            && forall i :: |s.out| <= i < |t.out| ==>
                 SiteRow(t.out[i], chrom, site, ArchaicGenotype(row, a.index).value)
                 && ParseNat(t.out[i][1]) == Some(site.pos)
  {
    var site := ReadSite(row, a.index).value;
    var g := ArchaicGenotype(row, a.index).value;
    var t := Step(s, row, a, m, chrom);
    ParseDecimal(site.pos);
    if !IsSnp(site) {
      assert t == s;
    } else if g != "0" && !InPool(site.pos, m.pool) {
      assert t.out == s.out + [PrivateRow(chrom, Decimal(site.pos), site.ref, site.alt, g, |SampleNames(m)|)];
    } else if s.seek >= |m.text| - 1 {
      assert t == s;
    } else {
      var sc := Scan(m.text, m.index, chrom, site, g, s.seek);
      ScanRowsShape(m.text, m.index, chrom, site, g, s.seek);
      assert t.out == s.out + sc.rows;
      forall i | |s.out| <= i < |t.out|
        ensures SiteRow(t.out[i], chrom, site, g) && ParseNat(t.out[i][1]) == Some(site.pos)
      {
        assert t.out[i] == sc.rows[i - |s.out|];
      }
    }
  }

  /**
   * When the pool test lets the site through (a "0" call, since an integer
   * position is never in the pool), one archaic row adds only joined rows of
   * compatible modern records at the archaic position from the cursor on, in
   * file order: a prefix of the reference `Matches`.
   */
  lemma StepJoins(s: MergeState, row: Row, a: ArchaicVcf, m: ModernVcf, chrom: string)
    requires s.ok && ReadSite(row, a.index).Some? && ArchaicGenotype(row, a.index).Some?
    requires ArchaicGenotype(row, a.index).value == "0" || InPool(ReadSite(row, a.index).value.pos, m.pool)
    ensures var t := Step(s, row, a, m, chrom);
            |t.out| >= |s.out| && t.out[..|s.out|] == s.out
            && t.out[|s.out|..] <= Matches(m.text, m.index, chrom, ReadSite(row, a.index).value,
                                           ArchaicGenotype(row, a.index).value, s.seek)
  {
    var site := ReadSite(row, a.index).value;
    var g := ArchaicGenotype(row, a.index).value;
    var t := Step(s, row, a, m, chrom);
    ScanWritesPrefix(m.text, m.index, chrom, site, g, s.seek);
    if IsSnp(site) && s.seek < |m.text| - 1 {
      assert t.out[|s.out|..] == Scan(m.text, m.index, chrom, site, g, s.seek).rows;
    } else {
      assert t.out[|s.out|..] == [];
    }
  }
}
