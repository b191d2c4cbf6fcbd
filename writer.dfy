// Writing a log as a series of numbered files (writer.go of package
// filewriter): prefix-00001, prefix-00002, ..., a new file whenever the
// current one passes 100 MiB; and the varint length framing of
// selfDelimitedWriter.
module FileWriter {
  import opened Base
  import opened GoStrconv
  import opened GoSort
  import opened FileReader
  import Varint

  /** The number a name in format ends with. */
  function Suffix(name: string): nat
    requires |name| >= 5 && AllDigits(name[|name| - 5..])
  {
    DecimalValue(name[|name| - 5..])
  }

  /** generateName as written: one past the latest suffix, printed with %05d. */
  function NextName(names: seq<string>, prefix: string): string
  {
    match Latest(names, prefix)
    case None => prefix + "-00001"
    case Some(l) =>
      LatestIsGreatest(names, prefix);
      prefix + "-" + ZeroPad(Suffix(l) + 1, 5)
  }

  /** generateName as intended: it refuses to go past prefix-99999. */
  function NextNameChecked(names: seq<string>, prefix: string): Result<string>
  {
    match Latest(names, prefix)
    case None => Ok(prefix + "-00001")
    case Some(l) =>
      LatestIsGreatest(names, prefix);
      if Suffix(l) + 1 > 99999 then Err(ERANGE)
      else Ok(prefix + "-" + ZeroPad(Suffix(l) + 1, 5))
  }

  /**
   * As written, the name after prefix-99999 is prefix-100000, which is not
   * in format. The next generateName, with prefix-100000 on disk, ignores it
   * and returns prefix-100000 again, which recycle then truncates.
   */
  lemma NextNameOverflow()
    ensures NextName(["log-99999"], "log") == "log-100000"
    ensures !InFormat("log-100000", "log")
    ensures NextName(["log-99999", "log-100000"], "log") == "log-100000"
  {
    LatestOf99999();
    NextAfter99999();
  }

  lemma LatestOf99999()
    ensures Latest(["log-99999"], "log") == Some("log-99999")
    ensures Latest(["log-99999", "log-100000"], "log") == Some("log-99999")
  {
    var a := "log-99999";
    var b := "log-100000";
    assert InFormat(a, "log") by {
      assert a[..3] == "log" && a[4..] == "99999";
    }
    assert !InFormat(b, "log") by {
      assert b[|b| - 6] == '1';
    }
    var keep := FormatOf("log");
    assert keep(a) && !keep(b);
    assert [a, b][1..] == [b] && [a][1..] == [] && [b][1..] == [];
    assert FilterBy([b], keep) == [];
    assert FilterBy([a], keep) == [a];
    assert FilterBy([a, b], keep) == [a] + FilterBy([b], keep);
  }

  lemma NextAfter99999()
    ensures "log-99999"[4..] == "99999" && Suffix("log-99999") == 99999
    ensures "log" + "-" + ZeroPad(100000, 5) == "log-100000"
  {
    assert "log-99999"[4..] == "99999";
    assert Decimal(99999) == "99999";
    DecimalRoundTrip(99999);
    assert Decimal(100000) == "100000";
  }

  /** Every name in format is exactly prefix, '-' and five digits. */
  predicate Strict(names: seq<string>, prefix: string)
  {
    forall x | x in names && InFormat(x, prefix) :: |x| == |prefix| + 6
  }

  /**
   * The corrected generateName always yields a name in format, so the next
   * call sees it; and when the names in format are strictly prefix-NNNNN, the
   * name is not one of them, so no file is truncated.
   */
  lemma CheckedIsFresh(names: seq<string>, prefix: string)
    ensures NextNameChecked(names, prefix).Ok? ==> InFormat(NextNameChecked(names, prefix).value, prefix)
    ensures NextNameChecked(names, prefix).Ok? && Strict(names, prefix) ==> NextNameChecked(names, prefix).value !in names
  {
    LatestIsGreatest(names, prefix);
    match Latest(names, prefix)
    case None =>
      NameInFormat(prefix, 1);
      assert ZeroPad(1, 5) == "00001";
    case Some(l) =>
      CheckedAfter(names, prefix, l);
  }

  lemma CheckedAfter(names: seq<string>, prefix: string, l: string)
    requires l in names && InFormat(l, prefix)
    requires forall x | x in names && InFormat(x, prefix) :: LessEq(x, l)
    ensures Suffix(l) + 1 <= 99999 ==> InFormat(prefix + "-" + ZeroPad(Suffix(l) + 1, 5), prefix)
    ensures Suffix(l) + 1 <= 99999 && Strict(names, prefix) ==> prefix + "-" + ZeroPad(Suffix(l) + 1, 5) !in names
  {
    var k := Suffix(l) + 1;
    if k <= 99999 {
      NameInFormat(prefix, k);
      var name := prefix + "-" + ZeroPad(k, 5);
      if Strict(names, prefix) && name in names {
        Successor(prefix, l, ZeroPad(k, 5), k);
      }
    }
  }

  /** prefix-%05d of a number below 100000 is in format, and its digits read back as the number. */
  lemma NameInFormat(prefix: string, k: nat)
    requires k <= 99999
    ensures var d := ZeroPad(k, 5);
      |d| == 5 && DecimalValue(d) == k && InFormat(prefix + "-" + d, prefix)
  {
    var d := ZeroPad(k, 5);
    var name := prefix + "-" + d;
    assert Pow(10, 5) == 100000;
    DecimalLength(k, 5);
    ZeroPadValue(k, 5);
    assert name[|name| - 5..] == d && name[|name| - 6] == '-' && name[..|prefix|] == prefix;
  }

  /** prefix-d, with d one past the suffix of the latest strict name l, is not below l. */
  lemma Successor(prefix: string, l: string, d: string, k: nat)
    requires |l| == |prefix| + 6 && HasPrefix(l, prefix) && l[|l| - 6] == '-' && AllDigits(l[|l| - 5..])
    requires |d| == 5 && AllDigits(d) && DecimalValue(d) == k && k == DecimalValue(l[|l| - 5..]) + 1
    ensures !LessEq(prefix + "-" + d, l)
  {
    var dl := l[|l| - 5..];
    assert l == (prefix + "-") + dl;
    assert prefix + "-" + d == (prefix + "-") + d;
    LessAfterPrefix(prefix + "-", d, dl);
    if LessEq(d, dl) {
      DigitsOrder(d, dl);
    }
  }

  /** On digit strings of one length, Go's order is the numeric order. */
  lemma {:induction false} DigitsOrder(a: string, b: string)
    requires |a| == |b| && AllDigits(a) && AllDigits(b) && LessEq(a, b)
    ensures DecimalValue(a) <= DecimalValue(b)
  {
    if a != b && a != [] {
      DecimalFront(a);
      DecimalFront(b);
      var p := Pow(10, |a| - 1);
      if a[0] == b[0] {
        DigitsOrder(a[1..], b[1..]);
      } else {
        DecimalValueBound(a[1..]);
        LeadingDigit(DigitValue(a[0]), DigitValue(b[0]), DecimalValue(a[1..]), DecimalValue(b[1..]), p);
      }
    }
  }

  lemma LeadingDigit(x: nat, y: nat, ra: nat, rb: nat, p: nat)
    requires x < y && ra < p
    ensures x * p + ra <= y * p + rb
  {
    MulLe(p, x + 1, y);
  }

  /** The value of a digit string, read from its first digit. */
  lemma {:induction false} DecimalFront(a: string)
    requires |a| >= 1 && AllDigits(a)
    ensures DecimalValue(a) == DigitValue(a[0]) * Pow(10, |a| - 1) + DecimalValue(a[1..])
  {
    if |a| > 1 {
      var i := a[..|a| - 1];
      var t := a[1..];
      DecimalFront(i);
      assert i[1..] == t[..|t| - 1] && t[|t| - 1] == a[|a| - 1] && i[0] == a[0];
      assert DecimalValue(t) == DecimalValue(i[1..]) * 10 + DigitValue(a[|a| - 1]);
      Shift(DigitValue(a[0]), Pow(10, |a| - 2), DecimalValue(i[1..]), DigitValue(a[|a| - 1]));
    } else {
      assert a[1..] == [] && a[..0] == [];
    }
  }

  lemma Shift(d: nat, p: nat, v: nat, l: nat)
    ensures (d * p + v) * 10 + l == d * (10 * p) + (v * 10 + l)
  {
  }

  lemma {:induction false} DecimalLength(n: nat, w: nat)
    requires w >= 1 && n < Pow(10, w)
    ensures |Decimal(n)| <= w
  {
    if n >= 10 {
      DecimalLength(n / 10, w - 1);
    }
  }

  /** generateName as written, over the directory listing (or the error that listing it gave). */
  method GenerateName(listing: Result<seq<string>>, prefix: string) returns (r: Result<string>)
    ensures listing.Err? ==> r == Err(listing.error)
    ensures listing.Ok? ==> r == Ok(NextName(listing.value, prefix))
  {
    if listing.Err? {
      return Err(listing.error);
    }
    var last, k := LatestFile(listing.value, prefix);
    if last.None? {
      return Ok(prefix + "-00001");
    }
    return Ok(prefix + "-" + ZeroPad(k + 1, 5));
  }

  /** generateName as intended: ERANGE instead of a sixth digit. */
  method GenerateNameChecked(listing: Result<seq<string>>, prefix: string) returns (r: Result<string>)
    ensures listing.Err? ==> r == Err(listing.error)
    ensures listing.Ok? ==> r == NextNameChecked(listing.value, prefix)
  {
    if listing.Err? {
      return Err(listing.error);
    }
    var last, k := LatestFile(listing.value, prefix);
    if last.None? {
      return Ok(prefix + "-00001");
    }
    if k + 1 > 99999 {
      return Err(ERANGE);
    }
    return Ok(prefix + "-" + ZeroPad(k + 1, 5));
  }

  /** The name recycle goes for, with the corrected generateName, or the error listing the directory gave. */
  function NextFileChecked(names: seq<string>, prefix: string, listErr: Option<Error>): Result<string>
  {
    if listErr.Some? then Err(listErr.value) else NextNameChecked(names, prefix)
  }

  /** The name recycle goes for as written, or the error listing the directory gave. */
  function NextFileAsWritten(names: seq<string>, prefix: string, listErr: Option<Error>): Result<string>
  {
    if listErr.Some? then Err(listErr.value) else Ok(NextName(names, prefix))
  }

  /** The files in format, sorted; the last of them, and its number. */
  method LatestFile(names: seq<string>, prefix: string) returns (last: Option<string>, k: nat)
    ensures last == Latest(names, prefix)
    ensures last.Some? ==> InFormat(last.value, prefix) && k == Suffix(last.value)
  {
    var files := FilterAndSort(names, prefix);
    FilterAndSortLast(names, prefix, files);
    if |files| == 0 {
      return None, 0;
    }
    var l := files[|files| - 1];
    k := SuffixOf(l, names, prefix);
    last := Some(l);
  }

  /** strconv.Atoi(last[len(last)-5:]): it cannot fail on a name in format. */
  method SuffixOf(last: string, names: seq<string>, prefix: string) returns (k: nat)
    requires Latest(names, prefix) == Some(last)
    ensures InFormat(last, prefix) && k == Suffix(last)
  {
    LatestIsGreatest(names, prefix);
    var d := last[|last| - 5..];
    DecimalValueBound(d);
    assert Pow(10, 5) == 100000;
    AtoiUnsigned(d);
    var a := Atoi(d);
    return a.value;
  }

  const RecycleSize: nat := 1024 * 1024 * 100

  class FileWriter {
    const prefix: string
    /** The directory: each file's name and contents. */
    var dir: map<string, seq<byte>>
    /** The open file, or nil. */
    var file: Option<string>
    var written: int
    /** Whether the gob encoder is attached. */
    var enc: bool

    /** The byte count is the size of the open file. */
    ghost predicate Valid()
      reads this
    {
      file.Some? ==> file.value in dir && written == |dir[file.value]|
    }

    constructor (prefix: string, dir: map<string, seq<byte>>)
      ensures Valid() && this.prefix == prefix && this.dir == dir
      ensures file == None && written == 0 && !enc
    {
      this.prefix, this.dir := prefix, dir;
      file, written, enc := None, 0, false;
    }

    /**
     * What recycle leaves behind when it went for the name r (or the
     * listing error in r) over the directory d0: the count is reset, and
     * either the error is returned with no file open, or r is created
     * empty and open.
     */
    ghost predicate RecycledTo(r: Result<string>, openErr: Option<Error>, d0: map<string, seq<byte>>, err: Option<Error>)
      reads this
    {
      written == 0 &&
      (r.Err? ==> err == Some(r.error) && file == None && dir == d0) &&
      (r.Ok? && openErr.Some? ==> err == openErr && file == None && dir == d0) &&
      (r.Ok? && openErr.None? ==> err == None && file == Some(r.value) && dir == d0[r.value := []])
    }

    /**
     * recycle, with the corrected generateName: closes the open file,
     * resets the count and creates the next numbered file, empty, or
     * returns ERANGE past prefix-99999. names lists the directory in any
     * order.
     */
    method Recycle(names: seq<string>, listErr: Option<Error>, openErr: Option<Error>) returns (err: Option<Error>)
      requires forall x :: x in names <==> x in dir
      modifies this
      ensures Valid() && enc == old(enc)
      ensures RecycledTo(NextFileChecked(names, prefix, listErr), openErr, old(dir), err)
    {
      var listing := if listErr.Some? then Err(listErr.value) else Ok(names);
      var name := GenerateNameChecked(listing, prefix);
      err := Reopen(name, openErr);
    }

    /**
     * recycle as written: the same, with generateName as written, so that
     * with prefix-99999 on disk it creates prefix-100000, and truncates
     * that same file on every later recycle.
     */
    method RecycleAsWritten(names: seq<string>, listErr: Option<Error>, openErr: Option<Error>) returns (err: Option<Error>)
      requires forall x :: x in names <==> x in dir
      modifies this
      ensures Valid() && enc == old(enc)
      ensures RecycledTo(NextFileAsWritten(names, prefix, listErr), openErr, old(dir), err)
    {
      var listing := if listErr.Some? then Err(listErr.value) else Ok(names);
      var name := GenerateName(listing, prefix);
      err := Reopen(name, openErr);
    }

    /** The part of recycle after the name: drop the file, reset the count, create and open the name. */
    method Reopen(name: Result<string>, openErr: Option<Error>) returns (err: Option<Error>)
      modifies this
      ensures Valid() && enc == old(enc)
      ensures RecycledTo(name, openErr, old(dir), err)
    {
      file := None;
      written := 0;
      if name.Err? {
        return Some(name.error);
      }
      if openErr.Some? {
        return openErr;
      }
      // O_CREATE|O_TRUNC: the file is new or emptied
      dir := dir[name.value := []];
      file := Some(name.value);
      return None;
    }

    /**
     * Write: appends p to the open file and counts it; past 100 MiB it
     * recycles and reports recycle's error. A failed write is not counted.
     */
    method Write(p: seq<byte>, writeErr: Option<Error>, names: seq<string>, listErr: Option<Error>,
                 openErr: Option<Error>) returns (n: int, err: Option<Error>)
      requires Valid()
      requires forall x :: x in names <==> x in dir
      modifies this
      ensures Valid() && enc == old(enc)
      ensures old(file).None? ==> n == 0 && err == Some(EINVAL) && unchanged(this)
      ensures old(file).Some? && writeErr.Some? ==> n == 0 && err == writeErr && unchanged(this)
      ensures old(file).Some? && writeErr.None? ==> n == |p|
      ensures old(file).Some? && writeErr.None? && old(written) + |p| <= RecycleSize ==>
        err == None && file == old(file) && written == old(written) + |p| &&
        dir == old(dir)[old(file).value := old(dir)[old(file).value] + p]
      ensures old(file).Some? && writeErr.None? && old(written) + |p| > RecycleSize ==>
        RecycledTo(NextFileChecked(names, prefix, listErr), openErr,
                   old(dir)[old(file).value := old(dir)[old(file).value] + p], err)
    {
      if file.None? {
        // os.File.Write on a nil file
        return 0, Some(EINVAL);
      }
      if writeErr.Some? {
        return 0, writeErr;
      }
      var f := file.value;
      dir := dir[f := dir[f] + p];
      written := written + |p|;
      if written > RecycleSize {
        err := Recycle(names, listErr, openErr);
        return |p|, err;
      }
      return |p|, None;
    }

    /** Close: detaches the file and the encoder; closing a nil file is EINVAL. */
    method Close(closeErr: Option<Error>) returns (err: Option<Error>)
      requires Valid()
      modifies this
      ensures Valid() && file == None && !enc && dir == old(dir) && written == old(written)
      ensures err == if old(file).None? then Some(EINVAL) else closeErr
    {
      err := if file.None? then Some(EINVAL) else closeErr;
      file := None;
      enc := false;
    }
  }

  /** MakeFileWriter: a writer on a freshly created first (or next) file. */
  method MakeFileWriter(prefix: string, dir: map<string, seq<byte>>, names: seq<string>,
                        listErr: Option<Error>, openErr: Option<Error>) returns (w: FileWriter?, err: Option<Error>)
    requires forall x :: x in names <==> x in dir
    ensures err.None? <==> w != null
    ensures w != null ==> fresh(w) && w.Valid() && w.file.Some? && w.written == 0 && w.enc
    ensures var r := NextFileChecked(names, prefix, listErr);
      (r.Err? ==> err == Some(r.error)) && (r.Ok? && openErr.Some? ==> err == openErr) &&
      (r.Ok? && openErr.None? ==> w != null && w.prefix == prefix && w.file == Some(r.value) && w.dir == dir[r.value := []])
  {
    w := new FileWriter(prefix, dir);
    err := w.Recycle(names, listErr, openErr);
    if err.Some? {
      return null, err;
    }
    w.enc := true;
  }

  // ----- selfDelimitedWriter -----

  /** A record as selfDelimitedWriter frames it: its length as a varint, then its bytes. */
  function Frame(p: seq<byte>): seq<byte>
  {
    Varint.Encoding(|p|) + p
  }

  /** A reader of the stream finds each record's length, then the record, then what follows. */
  lemma FrameRoundTrip(p: seq<byte>, rest: seq<byte>)
    requires |p| < TWO_64
    ensures var (len, k) := Varint.Decode(Frame(p) + rest);
      len == |p| && k == |Varint.Encoding(|p|)| &&
      (Frame(p) + rest)[k..k + len] == p && (Frame(p) + rest)[k + len..] == rest
  {
    var e := Varint.Encoding(|p|);
    assert Frame(p) + rest == e + (p + rest);
    Varint.DecodeEncoding(|p|, p + rest);
  }

  class SelfDelimitedWriter {
    /** What the underlying writer has accepted. */
    var out: seq<byte>

    constructor (out: seq<byte>)
      ensures this.out == out
    {
      this.out := out;
    }

    /**
     * Write: the varint length, then p, through the underlying writer; a
     * failure of the first write returns (0, err), of the second its result.
     */
    method Write(p: seq<byte>, headErr: Option<Error>, bodyErr: Option<Error>) returns (n: int, err: Option<Error>)
      requires |p| < TWO_64
      modifies this
      ensures headErr.Some? ==> n == 0 && err == headErr && out == old(out)
      ensures headErr.None? && bodyErr.Some? ==> n == 0 && err == bodyErr && out == old(out) + Varint.Encoding(|p|)
      ensures headErr.None? && bodyErr.None? ==> n == |p| && err == None && out == old(out) + Frame(p)
    {
      var h := Varint.EncodeVarint(|p|);
      if headErr.Some? {
        return 0, headErr;
      }
      out := out + h;
      if bodyErr.Some? {
        return 0, bodyErr;
      }
      out := out + p;
      return |p|, None;
    }
  }
}
