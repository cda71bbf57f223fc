/**
 * Definitions shared by the three versions of the archaic/modern genotype
 * merge: split rows, decimal positions, genotype tokens, header-name
 * resolution, the modern position pool and the comment-stripping reader.
 *
 * A text line is given already split on tabs (a `Row`); a line "starts with"
 * a prefix when its first field does.
 */
module VcfCommon {

  datatype Option<T> = None | Some(value: T)

  /** Why building a file object stops (the source prints and exits, or raises). */
  datatype Failure =
    | NoHeaderLine                // no line starts with "#CHROM"
    | EmptyText                   // the loaded text has no first line to read the header from
    | MissingColumn(name: string) // a required header name is absent
    | NoSampleColumn              // "FORMAT" is the last header cell, so there is no sample name
    | ShortRow                    // a data row is too short for the column the pool reads
    | UnknownKey(key: string)     // `get` of a key the header map does not hold

  datatype Result<T> = Ok(value: T) | Err(error: Failure)

  /** One tab-separated line, split into its fields. */
  type Row = seq<string>

  /** A Python value as far as the merge needs one: a `str` or an `int`. */
  datatype PyValue = PyStr(s: string) | PyInt(i: int)

  // ---------------------------------------------------------------------
  // Prefixes and line kinds

  predicate StartsWith(s: string, prefix: string) {
    |prefix| <= |s| && s[..|prefix|] == prefix
  }

  predicate LineStartsWith(line: Row, prefix: string) {
    |line| > 0 && StartsWith(line[0], prefix)
  }

  /** A meta-information line, `##...`. */
  predicate IsComment(line: Row) {
    LineStartsWith(line, "##")
  }

  /** The column-header line, `#CHROM ...`. */
  predicate IsHeader(line: Row) {
    LineStartsWith(line, "#CHROM")
  }

  lemma CommentIsNotHeader(line: Row)
    ensures IsComment(line) ==> !IsHeader(line)
  {
    if IsComment(line) {
      assert line[0][1] == '#';
    }
  }

  /** Python slicing `row[k:]`, which is empty when `k` is past the end. */
  function Tail(row: Row, k: nat): (r: Row)
    ensures |r| == if k <= |row| then |row| - k else 0
    ensures forall i :: 0 <= i < |r| ==> r[i] == row[k + i]
  {
    if k <= |row| then row[k..] else []
  }

  // ---------------------------------------------------------------------
  // Decimal digits: `int(c)` on one character, `int(s)` on a position field
  // and `str(n)`

  predicate IsDigit(c: char) {
    '0' <= c <= '9'
  }

  function DigitValue(c: char): nat
    requires IsDigit(c)
  {
    (c as int) - ('0' as int)
  }

  function DigitChar(d: nat): char
    requires d < 10
  {
    (('0' as int) + d) as char
  }

  predicate AllDigits(s: string) {
    forall i :: 0 <= i < |s| ==> IsDigit(s[i])
  }

  function DigitsValue(s: string): nat
    requires AllDigits(s)
    decreases |s|
  {
    if |s| == 0 then 0 else DigitsValue(s[..|s| - 1]) * 10 + DigitValue(s[|s| - 1])
  }

  /** `int(s)` on a position field: a non-empty run of decimal digits. */
  function ParseNat(s: string): (r: Option<nat>)
    ensures r.Some? <==> |s| > 0 && AllDigits(s)
  {
    if |s| > 0 && AllDigits(s) then Some(DigitsValue(s)) else None
  }

  /** `str(n)` for a natural number. */
  function Decimal(n: nat): (s: string)
    ensures |s| > 0 && AllDigits(s)
    decreases n
  {
    if n < 10 then [DigitChar(n)] else Decimal(n / 10) + [DigitChar(n % 10)]
  }

  /** `int(str(n)) == n`. */
  lemma {:induction false} ParseDecimal(n: nat)
    ensures ParseNat(Decimal(n)) == Some(n)
  {
    if n >= 10 {
      ParseDecimal(n / 10);
      var s := Decimal(n);
      assert s[..|s| - 1] == Decimal(n / 10);
      assert DigitsValue(s[..|s| - 1]) == n / 10;
      assert DigitValue(s[|s| - 1]) == n % 10;
      assert DigitsValue(s) == (n / 10) * 10 + n % 10;
    }
  }

  /** `str` is injective on naturals, because `int` undoes it. */
  lemma DecimalInjective(m: nat, n: nat)
    ensures Decimal(m) == Decimal(n) <==> m == n
  {
    ParseDecimal(m);
    ParseDecimal(n);
  }

  // ---------------------------------------------------------------------
  // Genotype tokens "a/b": alleles at index 0 and 2

  /** Both allele characters are present and are digits. */
  predicate Diploid(t: string) {
    |t| >= 3 && IsDigit(t[0]) && IsDigit(t[2])
  }

  function AlleleSum(t: string): nat
    requires Diploid(t)
  {
    DigitValue(t[0]) + DigitValue(t[2])
  }

  /**
   * The archaic genotype: `str(int(t[0]) + int(t[2]))`, falling back to "0"
   * on a ValueError (a non-digit allele). An IndexError is not caught there,
   * so an empty token, or a digit first allele with no third character,
   * raises (None).
   */
  function EncodeArchaic(t: string): (r: Option<string>)
    ensures r.None? <==> |t| == 0 || (IsDigit(t[0]) && |t| < 3)
    ensures r.Some? && Diploid(t) ==> r.value == Decimal(AlleleSum(t)) && ParseNat(r.value) == Some(AlleleSum(t))
    ensures r.Some? && !Diploid(t) ==> r.value == "0"
  {
    if |t| == 0 then None
    else if !IsDigit(t[0]) then Some("0")
    else if |t| < 3 then None
    else if !IsDigit(t[2]) then Some("0")
    else ParseDecimal(AlleleSum(t)); Some(Decimal(AlleleSum(t)))
  }

  /** The encoded archaic genotype is "0" exactly for a fallback or a "0?0" call. */
  lemma ArchaicZero(t: string)
    requires EncodeArchaic(t).Some?
    ensures EncodeArchaic(t).value == "0" <==> !Diploid(t) || AlleleSum(t) == 0
  {
    if Diploid(t) {
      DecimalInjective(AlleleSum(t), 0);
    }
  }

  /** A modern genotype: `str(int(x[0]) + int(x[2]))` with no fallback. */
  function EncodeModern(t: string): (r: Option<string>)
    ensures r.Some? <==> Diploid(t)
    ensures r.Some? ==> r.value == Decimal(AlleleSum(t)) && ParseNat(r.value) == Some(AlleleSum(t))
  {
    if Diploid(t) then ParseDecimal(AlleleSum(t)); Some(Decimal(AlleleSum(t))) else None
  }

  /** The list comprehension over every modern sample; any bad token raises. */
  function EncodeSamples(ts: seq<string>): (r: Option<seq<string>>)
    ensures r.Some? <==> forall i :: 0 <= i < |ts| ==> Diploid(ts[i])
    ensures r.Some? ==> |r.value| == |ts|
    ensures r.Some? ==> forall i :: 0 <= i < |ts| ==> r.value[i] == EncodeModern(ts[i]).value
  {
    if |ts| == 0 then Some([])
    else match (EncodeModern(ts[0]), EncodeSamples(ts[1..]))
      case (Some(g), Some(gs)) => Some([g] + gs)
      case _ => None
  }

  // ---------------------------------------------------------------------
  // Output rows

  function Zeros(n: nat): (r: seq<string>)
    ensures |r| == n && forall i :: 0 <= i < n ==> r[i] == "0"
  {
    seq(n, _ => "0")
  }

  /** An archaic-only site: the archaic count followed by a zero per modern sample. */
  function PrivateRow(chrom: string, pos: string, ref: string, alt: string, geno: string, samples: nat): Row {
    [chrom, pos, ref, alt, geno] + Zeros(samples)
  }

  /** A joined site: the modern ALT and one count per modern sample. */
  function JoinedRow(chrom: string, pos: string, ref: string, mdAlt: string, geno: string, counts: seq<string>): Row {
    [chrom, pos, ref, mdAlt, geno] + counts
  }

  /** The header written to the output: fixed names, the archaic sample, the modern samples. */
  function OutputHeader(archaicName: string, samples: Row): Row {
    ["chrom", "pos", "ref", "alt", archaicName] + samples
  }

  /** The allele test for a modern record at the archaic position. */
  predicate Compatible(mdRef: string, mdAlt: string, ref: string, alt: string) {
    |mdRef| == 1 && |mdAlt| == 1 && mdRef == ref && (mdAlt == alt || alt == ".")
  }

  // ---------------------------------------------------------------------
  // Header resolution: `list.index(name)`, the first occurrence

  predicate FirstAt(row: Row, name: string, i: nat) {
    i < |row| && row[i] == name && forall k :: 0 <= k < i ==> row[k] != name
  }

  function IndexOf(row: Row, name: string): (r: Option<nat>)
    ensures r.None? <==> name !in row
    ensures r.Some? ==> FirstAt(row, name, r.value)
  {
    if |row| == 0 then None
    else if row[0] == name then Some(0)
    else match IndexOf(row[1..], name)
      case None => assert row == [row[0]] + row[1..]; None
      case Some(i) =>
        assert forall k :: 1 <= k < i + 1 ==> row[k] == row[1..][k - 1];
        Some(i + 1)
  }

  /** Column positions of one file; `sample` is the first sample column, FORMAT + 1. */
  datatype ColumnIndex = ColumnIndex(chrom: nat, pos: nat, ref: nat, alt: nat, sample: nat)

  /**
   * Resolve "#CHROM", "POS", "REF", "ALT" and FORMAT + 1 in a header row, in
   * that order; the first absent name is the one reported.
   */
  function Resolve(header: Row): (r: Result<ColumnIndex>)
    ensures r.Ok? <==> "#CHROM" in header && "POS" in header && "REF" in header
                       && "ALT" in header && "FORMAT" in header
    ensures r.Ok? ==> FirstAt(header, "#CHROM", r.value.chrom) && FirstAt(header, "POS", r.value.pos)
                      && FirstAt(header, "REF", r.value.ref) && FirstAt(header, "ALT", r.value.alt)
                      && 1 <= r.value.sample <= |header| && FirstAt(header, "FORMAT", r.value.sample - 1)
    ensures r == Err(MissingColumn("#CHROM")) <==> "#CHROM" !in header
    ensures r == Err(MissingColumn("POS")) <==> "#CHROM" in header && "POS" !in header
    ensures r == Err(MissingColumn("REF")) <==> "#CHROM" in header && "POS" in header && "REF" !in header
    ensures r == Err(MissingColumn("ALT")) <==>
              "#CHROM" in header && "POS" in header && "REF" in header && "ALT" !in header
    ensures r == Err(MissingColumn("FORMAT")) <==>
              "#CHROM" in header && "POS" in header && "REF" in header && "ALT" in header && "FORMAT" !in header
  {
    match (IndexOf(header, "#CHROM"), IndexOf(header, "POS"), IndexOf(header, "REF"),
           IndexOf(header, "ALT"), IndexOf(header, "FORMAT"))
    case (None, _, _, _, _) => Err(MissingColumn("#CHROM"))
    case (_, None, _, _, _) => Err(MissingColumn("POS"))
    case (_, _, None, _, _) => Err(MissingColumn("REF"))
    case (_, _, _, None, _) => Err(MissingColumn("ALT"))
    case (_, _, _, _, None) => Err(MissingColumn("FORMAT"))
    case (Some(c), Some(p), Some(rf), Some(a), Some(f)) => Ok(ColumnIndex(c, p, rf, a, f + 1))
  }

  // ---------------------------------------------------------------------
  // The header dictionary behind `get`

  datatype HeaderValue = Column(index: nat) | Name(text: string)

  /** The dictionary a file object builds; `sampleKey` names its sample entry. */
  function Entries(ix: ColumnIndex, sampleKey: string): map<string, HeaderValue> {
    map["chrom" := Column(ix.chrom), "pos" := Column(ix.pos), "ref" := Column(ix.ref),
        "alt" := Column(ix.alt), sampleKey := Column(ix.sample)]
  }

  /** `get(key)`: the stored value, or the "not present" abort. */
  function Get(entries: map<string, HeaderValue>, key: string): Result<HeaderValue> {
    if key in entries then Ok(entries[key]) else Err(UnknownKey(key))
  }

  // ---------------------------------------------------------------------
  // The modern position pool

  /** Every data row (every row after the header row) has a field at `col`. */
  predicate DataRowsReach(text: seq<Row>, col: nat) {
    forall i :: 1 <= i < |text| ==> col < |text[i]|
  }

  /**
   * Add field `col` of every data row (all rows after the header row) to a
   * set; a row too short for `col` raises an IndexError (None).
   */
  method CollectPool(text: seq<Row>, col: nat) returns (r: Option<set<string>>)
    ensures r.Some? <==> DataRowsReach(text, col)
    ensures r.Some? ==> forall s :: s in r.value <==>
                          exists i :: 1 <= i < |text| && col < |text[i]| && text[i][col] == s
  {
    var pool: set<string> := {};
    var i := 1;
    while i < |text|
      invariant 1 <= i
      invariant forall k :: 1 <= k < i && k < |text| ==> col < |text[k]|
      invariant forall s :: s in pool <==> exists k :: 1 <= k < i && k < |text| && col < |text[k]| && text[k][col] == s
    {
      if col >= |text[i]| {
        return None;
      }
      pool := pool + {text[i][col]};
      i := i + 1;
    }
    return Some(pool);
  }

  /** Python's `v in pool` for a set of strings: an `int` never equals a `str`. */
  predicate PyIn(v: PyValue, pool: set<string>) {
    v.PyStr? && v.s in pool
  }

  // ---------------------------------------------------------------------
  // Comment stripping: `full_text[header_count:]` at the first "#CHROM" line

  /** The number of `##` lines in `lines`. */
  function CountComments(lines: seq<Row>): (n: nat)
    ensures n <= |lines|
  {
    if |lines| == 0 then 0
    else CountComments(lines[..|lines| - 1]) + (if IsComment(lines[|lines| - 1]) then 1 else 0)
  }

  /** The index of the first header line. */
  function FirstHeader(lines: seq<Row>): (r: Option<nat>)
    ensures r.None? <==> forall k :: 0 <= k < |lines| ==> !IsHeader(lines[k])
    ensures r.Some? ==> r.value < |lines| && IsHeader(lines[r.value])
                        && forall k :: 0 <= k < r.value ==> !IsHeader(lines[k])
  {
    if |lines| == 0 then None
    else if IsHeader(lines[0]) then Some(0)
    else match FirstHeader(lines[1..])
      case None => None
      case Some(h) => Some(h + 1)
  }

  /** What the reader returns: the lines from the `##`-count onward, or nothing. */
  function Stripped(lines: seq<Row>): (r: Option<seq<Row>>)
    ensures r.Some? ==> |r.value| > 0
  {
    match FirstHeader(lines)
    case None => None
    case Some(h) => Some(lines[CountComments(lines[..h])..])
  }

  /**
   * `_get_maintext`: count `##` lines and, at the first "#CHROM" line,
   * return the text from the count onward; with no "#CHROM" line, nothing.
   */
  method StripComments(lines: seq<Row>) returns (r: Option<seq<Row>>)
    ensures r == Stripped(lines)
  {
    var headerCount := 0;
    var i := 0;
    while i < |lines|
      invariant i <= |lines|
      invariant headerCount == CountComments(lines[..i])
      invariant forall k :: 0 <= k < i ==> !IsHeader(lines[k])
    {
      assert lines[..i + 1][..i] == lines[..i];
      if IsComment(lines[i]) {
        headerCount := headerCount + 1;
      }
      if IsHeader(lines[i]) {
        CommentIsNotHeader(lines[i]);
        return Some(lines[headerCount..]);
      }
      i := i + 1;
    }
    return None;
  }

  lemma {:induction false} AllCommentsCount(lines: seq<Row>)
    requires forall k :: 0 <= k < |lines| ==> IsComment(lines[k])
    ensures CountComments(lines) == |lines|
  {
    if |lines| > 0 {
      AllCommentsCount(lines[..|lines| - 1]);
    }
  }

  /**
   * The reader returns nothing exactly when there is no header line, and
   * otherwise keeps the header line and everything after it.
   */
  lemma StrippedKeepsTail(lines: seq<Row>)
    ensures Stripped(lines).None? <==> forall k :: 0 <= k < |lines| ==> !IsHeader(lines[k])
    ensures Stripped(lines).Some? ==>
              var h := FirstHeader(lines).value;
              var r := Stripped(lines).value;
              |r| >= |lines| - h && r[|r| - (|lines| - h)..] == lines[h..]
  {
    if FirstHeader(lines).Some? {
      var h := FirstHeader(lines).value;
      var r := lines[CountComments(lines[..h])..];
      assert r[|r| - (|lines| - h)..] == lines[h..];
    }
  }

  /**
   * When only `##` lines precede the first header line, the reader returns
   * exactly the header line and every line after it.
   */
  lemma StrippedFromHeader(lines: seq<Row>)
    requires FirstHeader(lines).Some?
    requires forall k :: 0 <= k < FirstHeader(lines).value ==> IsComment(lines[k])
    ensures Stripped(lines) == Some(lines[FirstHeader(lines).value..])
  {
    AllCommentsCount(lines[..FirstHeader(lines).value]);
  }

  // ---------------------------------------------------------------------
  // A loaded modern file and the merge's running state

  /** A modern file object: its loaded text, column map and position pool. */
  datatype ModernVcf = ModernVcf(text: seq<Row>, index: ColumnIndex, pool: set<string>)

  /** The modern sample names: the header cells from the sample column on. */
  function SampleNames(m: ModernVcf): Row {
    if |m.text| > 0 then Tail(m.text[0], m.index.sample) else []
  }

  /** Every modern data row has a readable position, REF, ALT and sample tokens. */
  predicate WellFormedModern(m: ModernVcf) {
    forall i :: 1 <= i < |m.text| ==>
      ReadRecord(m.text[i], m.index).Some? && EncodeSamples(Tail(m.text[i], m.index.sample)).Some?
  }

  /**
   * The merge's running state: whether it is still going, the modern cursor
   * `seek_pointer` (an index into the modern text, header at 0) and the rows
   * written so far.
   */
  datatype MergeState = MergeState(ok: bool, seek: nat, out: seq<Row>)

  /** A modern record's position (parsed), REF and ALT; None where reading raises. */
  datatype Record = Record(pos: nat, ref: string, alt: string)

  function ReadRecord(md: Row, ix: ColumnIndex): (r: Option<Record>)
    ensures r.Some? <==> ix.pos < |md| && ix.ref < |md| && ix.alt < |md| && ParseNat(md[ix.pos]).Some?
    ensures r.Some? ==> r.value == Record(ParseNat(md[ix.pos]).value, md[ix.ref], md[ix.alt])
  {
    if ix.pos < |md| && ix.ref < |md| && ix.alt < |md| then
      match ParseNat(md[ix.pos])
      case None => None
      case Some(p) => Some(Record(p, md[ix.ref], md[ix.alt]))
    else None
  }
}
