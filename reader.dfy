// Reading back the files a FileWriter leaves (reader.go of package
// filewriter): the names are prefix...-NNNNN, and the latest is the
// greatest such name in Go's string order.
module FileReader {
  import opened Base
  import opened GoStrconv
  import opened GoSort
  import R = Replay

  /**
   * inFormat: the name starts with the prefix and ends in '-' and five
   * decimal digits; the '-' need not follow the prefix directly.
   */
  predicate InFormat(name: string, prefix: string)
  {
    HasPrefix(name, prefix) && |name| >= 6 && name[|name| - 6] == '-' && AllDigits(name[|name| - 5..])
  }

  /** inFormat as the code checks it: the five trailing characters one at a time. */
  method CheckFormat(name: string, prefix: string) returns (ok: bool)
    ensures ok == InFormat(name, prefix)
  {
    if !HasPrefix(name, prefix) {
      return false;
    }
    if |name| < 6 {
      return false;
    }
    if name[|name| - 6] != '-' {
      return false;
    }
    for i := 0 to 5
      invariant forall j :: |name| - i <= j < |name| ==> IsDigit(name[j])
    {
      if !IsDigit(name[|name| - 1 - i]) {
        return false;
      }
    }
    return true;
  }

  /** "logx-00001" is in the format of prefix "log". */
  lemma LooseFormat()
    ensures InFormat("logx-00001", "log") && !InFormat("log-0001", "log")
  {
  }

  /** The elements of s that keep accepts, in their order. */
  function FilterBy<T>(s: seq<T>, keep: T -> bool): seq<T>
  {
    if s == [] then [] else (if keep(s[0]) then [s[0]] else []) + FilterBy(s[1..], keep)
  }

  lemma {:induction false} FilterByConcat<T>(a: seq<T>, b: seq<T>, keep: T -> bool)
    ensures FilterBy(a + b, keep) == FilterBy(a, keep) + FilterBy(b, keep)
  {
    if a != [] {
      assert (a + b)[1..] == a[1..] + b;
      FilterByConcat(a[1..], b, keep);
    } else {
      assert a + b == b;
    }
  }

  lemma {:induction false} FilterByMembers<T>(s: seq<T>, keep: T -> bool, x: T)
    ensures x in FilterBy(s, keep) <==> x in s && keep(x)
  {
    if s != [] {
      FilterByMembers(s[1..], keep, x);
      assert s == [s[0]] + s[1..];
    }
  }

  /** inFormat for a fixed prefix, as a test on names. */
  function FormatOf(prefix: string): string -> bool
  {
    name => InFormat(name, prefix)
  }

  /** The names in format, in their order. */
  function Filter(names: seq<string>, prefix: string): seq<string>
  {
    FilterBy(names, FormatOf(prefix))
  }

  /** Filter keeps exactly the listed names that are in format. */
  lemma FilterMembers(names: seq<string>, prefix: string, x: string)
    ensures x in Filter(names, prefix) <==> x in names && InFormat(x, prefix)
  {
    FilterByMembers(names, FormatOf(prefix), x);
  }

  /**
   * filterAndSort: drops the names out of format by moving the last name
   * into their place, then sorts what is left.
   */
  method FilterAndSort(names: seq<string>, prefix: string) returns (r: seq<string>)
    ensures Sorted(r) && multiset(r) == multiset(Filter(names, prefix))
  {
    ghost var keep := FormatOf(prefix);
    // the slice is the caller's own copy of the directory listing
    var ns := names;
    var i := 0;
    while i < |ns|
      invariant 0 <= i <= |ns|
      invariant forall k :: 0 <= k < i ==> keep(ns[k])
      invariant multiset(ns[..i]) + multiset(FilterBy(ns[i..], keep)) == multiset(FilterBy(names, keep))
      decreases |ns| - i
    {
      var ok := CheckFormat(ns[i], prefix);
      if !ok {
        DropStep(ns, i, keep);
        ns := ns[i := ns[|ns| - 1]][..|ns| - 1];
        // i-- followed by the loop's i++: the same index is examined again
      } else {
        KeepStep(ns, i, keep);
        i := i + 1;
      }
    }
    assert ns[..i] == ns && ns[i..] == [];
    r := SortStrings(ns);
    SortSorted(ns);
  }

  lemma KeepStep<T>(ns: seq<T>, i: nat, keep: T -> bool)
    requires i < |ns| && keep(ns[i])
    ensures multiset(ns[..i + 1]) + multiset(FilterBy(ns[i + 1..], keep)) == multiset(ns[..i]) + multiset(FilterBy(ns[i..], keep))
  {
    assert ns[i..] == [ns[i]] + ns[i + 1..];
    assert ns[..i + 1] == ns[..i] + [ns[i]];
    FilterByConcat([ns[i]], ns[i + 1..], keep);
  }

  lemma DropStep<T>(ns: seq<T>, i: nat, keep: T -> bool)
    requires i < |ns| && !keep(ns[i])
    ensures var ms := ns[i := ns[|ns| - 1]][..|ns| - 1];
      ms[..i] == ns[..i] && multiset(FilterBy(ms[i..], keep)) == multiset(FilterBy(ns[i..], keep))
  {
    var ms := ns[i := ns[|ns| - 1]][..|ns| - 1];
    var last := |ns| - 1;
    if i < last {
      var mid := ns[i + 1..last];
      assert ns[i..] == [ns[i]] + mid + [ns[last]];
      assert ms[i..] == [ns[last]] + mid;
      Rotate(ns[i], mid, ns[last], keep);
    } else {
      assert ns[i..] == [ns[i]] && ms[i..] == [];
    }
  }

  /** Dropping a rejected head and moving the last element to the front keeps what is kept. */
  lemma Rotate<T>(x: T, mid: seq<T>, l: T, keep: T -> bool)
    requires !keep(x)
    ensures multiset(FilterBy([l] + mid, keep)) == multiset(FilterBy([x] + mid + [l], keep))
  {
    FilterByConcat([x] + mid, [l], keep);
    FilterByConcat([x], mid, keep);
    FilterByConcat([l], mid, keep);
  }

  /** The name SeekToLatestFile opens: the greatest name in format, if there is one. */
  function Latest(names: seq<string>, prefix: string): Option<string>
  {
    var f := Filter(names, prefix);
    if f == [] then None else Some(SortStrings(f)[|f| - 1])
  }

  /** The latest name is in format, listed, and not less than any listed name in format. */
  lemma LatestIsGreatest(names: seq<string>, prefix: string)
    ensures Latest(names, prefix).None? <==> forall x | x in names :: !InFormat(x, prefix)
    ensures Latest(names, prefix).Some? ==>
      var l := Latest(names, prefix).value;
      l in names && InFormat(l, prefix) && forall x | x in names && InFormat(x, prefix) :: LessEq(x, l)
  {
    var f := Filter(names, prefix);
    if f == [] {
      forall x | x in names
        ensures !InFormat(x, prefix)
      {
        FilterMembers(names, prefix, x);
      }
    } else {
      var s := SortStrings(f);
      SortSorted(f);
      var l := s[|s| - 1];
      assert l in multiset(f);
      FilterMembers(names, prefix, l);
      forall x | x in names && InFormat(x, prefix)
        ensures LessEq(x, l)
      {
        FilterMembers(names, prefix, x);
        assert x in multiset(f);
        assert x in multiset(s);
        LastIsGreatest(s, x);
      }
    }
  }

  /** Whatever order filterAndSort leaves equal names in, its last name is Latest. */
  lemma FilterAndSortLast(names: seq<string>, prefix: string, r: seq<string>)
    requires Sorted(r) && multiset(r) == multiset(Filter(names, prefix))
    ensures r == [] <==> Latest(names, prefix).None?
    ensures r != [] ==> Latest(names, prefix) == Some(r[|r| - 1])
  {
    var f := Filter(names, prefix);
    if f != [] {
      SortSorted(f);
      SameLast(SortStrings(f), r);
    }
  }

  /** A file as the model sees it: its bytes, and the gob values they decode to. */
  datatype FileImage = FileImage(data: seq<byte>, records: seq<seq<byte>>)

  class FileReader {
    const prefix: string
    /** The open file, read as a byte stream; nil before SeekToLatestFile. */
    var file: Option<R.Source>
    /** The gob decoder on it: the values it has still to decode. */
    var dec: Option<seq<seq<byte>>>

    /** MakeFileReader, once the directory exists. */
    constructor (prefix: string)
      ensures this.prefix == prefix && file == None && dec == None
    {
      this.prefix := prefix;
      file, dec := None, None;
    }

    /**
     * SeekToLatestFile, given the directory listing (or the error listing it
     * gave) and the directory's files: opens the latest name in format.
     */
    method SeekToLatestFile(listing: Result<seq<string>>, fs: map<string, FileImage>) returns (err: Option<Error>)
      modifies this
      ensures listing.Err? ==> err == Some(listing.error) && unchanged(this)
      ensures listing.Ok? && Latest(listing.value, prefix).None? ==> err == Some(EOF) && unchanged(this)
      ensures listing.Ok? && Latest(listing.value, prefix).Some? ==>
        var name := Latest(listing.value, prefix).value;
        (name in fs ==> err == None && file == Some(R.Source(fs[name].data, EOF)) && dec == Some(fs[name].records)) &&
        (name !in fs ==> err.Some? && file == None && dec == None)
    {
      if listing.Err? {
        return Some(listing.error);
      }
      var files := FilterAndSort(listing.value, prefix);
      FilterAndSortLast(listing.value, prefix, files);
      if |files| == 0 {
        return Some(EOF);
      }
      var name := files[|files| - 1];
      if name !in fs {
        file, dec := None, None;
        return Some(Failure("no such file"));
      }
      file := Some(R.Source(fs[name].data, EOF));
      dec := Some(fs[name].records);
      return None;
    }

    /** Read: EINVAL until a file is open, then the file's bytes. */
    method Read(m: nat) returns (n: int, got: seq<byte>, err: Option<Error>)
      modifies this
      ensures old(file).None? ==> n == 0 && got == [] && err == Some(EINVAL) && unchanged(this)
      ensures old(file).Some? ==>
        var (g, e, s) := R.SourceRead(old(file).value, m);
        got == g && n == |g| && err == e && file == Some(s)
      ensures dec == old(dec)
    {
      if file.None? {
        return 0, [], Some(EINVAL);
      }
      var (g, e, s) := R.SourceRead(file.value, m);
      file := Some(s);
      return |g|, g, e;
    }

    /** Decode: EINVAL until a file is open, then the next value, or EOF after the last. */
    method Decode() returns (err: Option<Error>, v: Option<seq<byte>>)
      modifies this
      ensures old(dec).None? ==> err == Some(EINVAL) && v == None && unchanged(this)
      ensures old(dec) == Some([]) ==> err == Some(EOF) && v == None && unchanged(this)
      ensures old(dec).Some? && old(dec).value != [] ==>
        err == None && v == Some(old(dec).value[0]) && dec == Some(old(dec).value[1..])
      ensures file == old(file)
    {
      if dec.None? {
        return Some(EINVAL), None;
      }
      if dec.value == [] {
        return Some(EOF), None;
      }
      v := Some(dec.value[0]);
      dec := Some(dec.value[1..]);
      return None, v;
    }
  }

  /**
   * recoverLatestDecode: decodes the latest file to its end and keeps the
   * last value; nil if at least one value decoded, EOF if none did or no
   * name is in format, and the stat, listing or open error when one of
   * those fails.
   */
  method RecoverLatestDecode(prefix: string, statErr: Option<Error>, listing: Result<seq<string>>,
                             fs: map<string, FileImage>) returns (err: Option<Error>, v: Option<seq<byte>>)
    ensures statErr.Some? ==> err == statErr && v == None
    ensures statErr.None? && listing.Ok? && Latest(listing.value, prefix).Some? &&
            Latest(listing.value, prefix).value in fs ==>
      var recs := fs[Latest(listing.value, prefix).value].records;
      (err == None <==> recs != []) && (err.Some? ==> err == Some(EOF)) &&
      (recs != [] ==> v == Some(recs[|recs| - 1]))
    ensures statErr.None? && listing.Ok? && Latest(listing.value, prefix).None? ==> err == Some(EOF) && v == None
    ensures statErr.None? && listing.Err? ==> err == Some(listing.error) && v == None
    ensures statErr.None? && listing.Ok? && Latest(listing.value, prefix).Some? &&
            Latest(listing.value, prefix).value !in fs ==>
      err.Some? && v == None
    ensures err.None? ==> v.Some?
  {
    if statErr.Some? {
      return statErr, None;
    }
    var r := new FileReader(prefix);
    err := r.SeekToLatestFile(listing, fs);
    if err.Some? {
      return err, None;
    }
    var ok := false;
    v := None;
    ghost var recs := r.dec.value;
    while true
      invariant r.dec.Some? && |r.dec.value| <= |recs| && recs[|recs| - |r.dec.value|..] == r.dec.value
      invariant ok <==> |r.dec.value| < |recs|
      invariant ok ==> v == Some(recs[|recs| - |r.dec.value| - 1])
      decreases |r.dec.value|
    {
      var e, x := r.Decode();
      if e.Some? {
        break;
      }
      v := x;
      ok := true;
    }
    if ok {
      return None, v;
    }
    return Some(EOF), None;
  }

  /**
   * LatestDecode: decodes the one value of prefix-latest, or recovers from
   * the numbered files when prefix-latest cannot be opened.
   */
  method LatestDecode(prefix: string, statErr: Option<Error>, listing: Result<seq<string>>,
                      fs: map<string, FileImage>) returns (err: Option<Error>, v: Option<seq<byte>>)
    ensures prefix + "-latest" in fs && fs[prefix + "-latest"].records != [] ==>
      err == None && v == Some(fs[prefix + "-latest"].records[0])
    ensures prefix + "-latest" in fs && fs[prefix + "-latest"].records == [] ==> err == Some(EOF)
    ensures prefix + "-latest" !in fs && statErr.Some? ==> err == statErr && v == None
    ensures prefix + "-latest" !in fs && statErr.None? && listing.Err? ==> err == Some(listing.error) && v == None
    ensures prefix + "-latest" !in fs && statErr.None? && listing.Ok? && Latest(listing.value, prefix).None? ==>
      err == Some(EOF) && v == None
    ensures prefix + "-latest" !in fs && statErr.None? && listing.Ok? && Latest(listing.value, prefix).Some? &&
            Latest(listing.value, prefix).value !in fs ==>
      err.Some? && v == None
    ensures prefix + "-latest" !in fs && statErr.None? && listing.Ok? && Latest(listing.value, prefix).Some? &&
            Latest(listing.value, prefix).value in fs ==>
      var recs := fs[Latest(listing.value, prefix).value].records;
      (err == None <==> recs != []) && (err.Some? ==> err == Some(EOF)) &&
      (recs != [] ==> v == Some(recs[|recs| - 1]))
    ensures err.None? ==> v.Some?
  {
    if prefix + "-latest" !in fs {
      err, v := RecoverLatestDecode(prefix, statErr, listing, fs);
      return;
    }
    var recs := fs[prefix + "-latest"].records;
    if recs == [] {
      return Some(EOF), None;
    }
    return None, Some(recs[0]);
  }
}
