/** The compression names of dpu/tarball.py: guessing a compression from a
    file name (`_determine_compression`, lines 153-164) and choosing the
    name and mode of the archive written for a compression
    (`_open_writeable_tarfile`, lines 107-124, and the naming in
    `make_orig_tarball`, lines 32-39). */
module Tarball {
  import opened Wrappers
  import opened PyStr

  /** The `ValueError`s of the module. */
  datatype TarballError =
    | CannotGuessCompression(filename: string) // `_determine_compression`
    | UnknownCompression(compression: string)  // `_open_writeable_tarfile`

  /** The compressions the module supports. */
  predicate Supported(compression: string) {
    compression in {"gzip", "bzip2", "xz", "lzma"}
  }

  /** The file name extension, without its dot, that goes with a supported
      compression. */
  function Extension(compression: string): string
    requires Supported(compression)
  {
    if compression == "gzip" then "gz"
    else if compression == "bzip2" then "bz2"
    else compression
  }

  // ------------------------------------------------------------ posix paths

  /** The last path component has a character other than `.`: some
      character that is neither `.` nor `/` has no `/` after it. */
  predicate HasName(path: string) {
    exists i :: 0 <= i < |path| && path[i] != '.' && path[i] != '/' && '/' !in path[i + 1..]
  }

  /** `os.path.splitext`: the last `.` of the last path component starts
      the extension, unless only dots come before it in that component. */
  function SplitExt(p: string): (r: (string, string))
    ensures r.0 + r.1 == p
    ensures r.1 != [] ==> r.1[0] == '.' && '.' !in r.1[1..] && '/' !in r.1 && HasName(r.0)
    ensures r.1 != [] ==> |r.0| == RFind(p, '.')
  {
    var sepIndex := RFind(p, '/');
    var dotIndex := RFind(p, '.');
    if dotIndex > sepIndex && exists i :: sepIndex < i < dotIndex && p[i] != '.' then
      assert HasName(p[..dotIndex]) by {
        var i :| sepIndex < i < dotIndex && p[i] != '.';
        assert p[..dotIndex][i + 1..] == p[i + 1..dotIndex];
      }
      (p[..dotIndex], p[dotIndex..])
    else
      (p, "")
  }

  /** `os.path.join(a, b)`: an absolute `b` replaces `a`; otherwise a `/`
      goes between them unless `a` is empty or already ends in one. */
  function PathJoin(a: string, b: string): (r: string)
    ensures |b| <= |r| && r[|r| - |b|..] == b
    ensures b == [] || b[0] != '/' ==> |a| <= |r| && r[..|a|] == a
  {
    if b != [] && b[0] == '/' then b
    else if a == [] || a[|a| - 1] == '/' then a + b
    else a + "/" + b
  }

  // -------------------------------------------------------- guessing a name

  /** `_determine_compression`: the compression the extension of a file
      name names, or the `ValueError` of a name it does not guess. */
  function DetermineCompression(filename: string): (r: Result<string, TarballError>)
    ensures r.Success? ==> Supported(r.value)
    ensures r.Failure? ==> r.error == CannotGuessCompression(filename)
  {
    var ext := SplitExt(filename).1;
    if ext == [] then Failure(CannotGuessCompression(filename))
    else
      var e := ext[1..];
      if e == "gz" then Success("gzip")
      else if e == "bz2" then Success("bzip2")
      else if e == "xz" || e == "lzma" then Success(e)
      else Failure(CannotGuessCompression(filename))
  }

  /** A name is guessed to be compressed with `c` exactly when its last
      extension is the one that goes with `c`. */
  lemma DetermineCompressionIff(filename: string, c: string)
    ensures DetermineCompression(filename) == Success(c)
        <==> Supported(c) && SplitExt(filename).1 == "." + Extension(c)
  {
    var ext := SplitExt(filename).1;
    if Supported(c) && ext == "." + Extension(c) {
      assert ext[1..] == Extension(c);
    }
  }

  /** A name is split at the dot before an extension that holds no `.` or
      `/`, when its last component has a name before that dot. */
  lemma SplitExtOf(stem: string, e: string)
    requires HasName(stem) && '.' !in e && '/' !in e
    ensures SplitExt(stem + "." + e) == (stem, "." + e)
  {
    var p := stem + "." + e;
    var sepIndex := RFind(p, '/');
    var dotIndex := RFind(p, '.');
    assert p[|stem|] == '.';
    assert forall j :: |stem| < j < |p| ==> p[j] == e[j - |stem| - 1];
    assert dotIndex == |stem|;
    var i :| 0 <= i < |stem| && stem[i] != '.' && stem[i] != '/' && '/' !in stem[i + 1..];
    assert p[i] == stem[i];
    assert forall j :: i < j < |stem| ==> p[j] == stem[i + 1..][j - i - 1];
    assert sepIndex < i;
    assert p[..dotIndex] == stem;
    assert p[dotIndex..] == "." + e;
  }

  /** Where a name with a dot-free last extension is split, if at all:
      at the dot before that extension. */
  lemma SplitAtLastDot(stem: string, e: string)
    requires '.' !in e && '/' !in e
    ensures SplitExt(stem + "." + e).1 != [] ==> SplitExt(stem + "." + e).0 == stem
  {
    var p := stem + "." + e;
    assert p[|stem|] == '.';
    assert forall j :: |stem| < j < |p| ==> p[j] == e[j - |stem| - 1];
    assert RFind(p, '.') == |stem|;
    assert p[..|stem|] == stem;
  }

  /** A name whose last component is nothing but dots before the dot that
      would start its extension has no extension at all. */
  lemma NoNameNoExtension(stem: string, e: string)
    requires !HasName(stem) && '.' !in e && '/' !in e
    ensures SplitExt(stem + "." + e).1 == []
  {
    SplitAtLastDot(stem, e);
  }

  // -------------------------------------------------------- writing a file

  /** How `_open_writeable_tarfile` writes: the file name, the `tarfile`
      mode, and the external compressor the stream goes through, if any. */
  datatype WritePlan = WritePlan(tarball: string, mode: string, compressor: Option<string>)

  /** `_open_writeable_tarfile`: `gzip` and `bzip2` are written by
      `tarfile` itself, `xz` and `lzma` through the command of that name. */
  function OpenWriteable(tarbase: string, compression: string): (r: Result<WritePlan, TarballError>)
    ensures r.Failure? <==> !Supported(compression)
    ensures r.Failure? ==> r.error == UnknownCompression(compression)
    ensures r.Success? ==> r.value.tarball == tarbase + "." + Extension(compression)
    ensures r.Success? ==> (r.value.compressor.Some? <==> compression == "xz" || compression == "lzma")
    ensures r.Success? && r.value.compressor.Some? ==> r.value.compressor.value == compression && r.value.mode == "w|"
    ensures r.Success? && r.value.compressor.None? ==> r.value.mode == "w:" + Extension(compression)
  {
    if compression == "gzip" || compression == "bzip2" then
      var ext := if compression == "bzip2" then "bz2" else "gz";
      Success(WritePlan(tarbase + "." + ext, "w:" + ext, None))
    else if compression != "xz" && compression != "lzma" then
      Failure(UnknownCompression(compression))
    else
      Success(WritePlan(tarbase + "." + compression, "w|", Some(compression)))
  }

  /** Guessing the compression of the file written for `c` gives `c` back
      exactly when the last component of the base name has a name. */
  lemma WriteThenGuess(tarbase: string, c: string)
    requires Supported(c)
    ensures DetermineCompression(OpenWriteable(tarbase, c).value.tarball) == Success(c) <==> HasName(tarbase)
  {
    var e := Extension(c);
    assert '.' !in e && '/' !in e;
    var name := OpenWriteable(tarbase, c).value.tarball;
    DetermineCompressionIff(name, c);
    if HasName(tarbase) {
      SplitExtOf(tarbase, e);
    } else {
      NoNameNoExtension(tarbase, e);
    }
  }

  /** A base name ending in a character other than `.` and `/` has a name. */
  lemma EndsInName(path: string)
    requires path != [] && path[|path| - 1] != '.' && path[|path| - 1] != '/'
    ensures HasName(path)
  {
    assert path[|path|..] == [];
  }

  // ------------------------------------------------------ orig tarballs

  /** What `make_orig_tarball` does: the directory it archives, the name
      the directory gets inside the archive, and how it writes the archive. */
  datatype OrigPlan = OrigPlan(source: string, arcname: string, write: WritePlan)

  /** The file name dpkg-source expects of an upstream tarball, before its
      compression extension. */
  function OrigName(upname: string, upversion: string): string {
    upname + "_" + upversion + ".orig.tar"
  }

  /** `make_orig_tarball`: `<upname>-<upversion>` under `rundir` goes into
      `<upname>_<upversion>.orig.tar.<ext>` under `outputdir`, which is
      `rundir` when not given. */
  function MakeOrigTarball(rundir: string, upname: string, upversion: string, compression: string,
                           outputdir: Option<string>): (r: Result<OrigPlan, TarballError>)
    ensures r.Failure? <==> !Supported(compression)
    ensures r.Failure? ==> r.error == UnknownCompression(compression)
    ensures r.Success? ==> r.value.arcname == upname + "-" + upversion
    ensures r.Success? ==> r.value.source == PathJoin(rundir, r.value.arcname)
  {
    var unpackdir := upname + "-" + upversion;
    var unpackpath := PathJoin(rundir, unpackdir);
    var dir := if outputdir.None? then rundir else outputdir.value;
    var origTarball := PathJoin(dir, OrigName(upname, upversion));
    match OpenWriteable(origTarball, compression)
    case Failure(e) => Failure(e)
    case Success(w) => Success(OrigPlan(unpackpath, unpackdir, w))
  }

  /** The orig tarball is `<upname>_<upversion>.orig.tar.<ext>` in the
      output directory, and its compression is guessed back from its name. */
  lemma OrigTarballNamed(rundir: string, upname: string, upversion: string, compression: string,
                         outputdir: Option<string>)
    requires Supported(compression)
    ensures var dir := if outputdir.None? then rundir else outputdir.value;
      MakeOrigTarball(rundir, upname, upversion, compression, outputdir).value.write.tarball
        == PathJoin(dir, OrigName(upname, upversion)) + "." + Extension(compression)
    ensures DetermineCompression(MakeOrigTarball(rundir, upname, upversion, compression, outputdir).value.write.tarball)
        == Success(compression)
  {
    var dir := if outputdir.None? then rundir else outputdir.value;
    var base := PathJoin(dir, OrigName(upname, upversion));
    var name := OrigName(upname, upversion);
    assert name[|name| - 1] == 'r';
    assert base[|base| - 1] == 'r' by {
      assert base[|base| - |name|..][|name| - 1] == base[|base| - 1];
    }
    EndsInName(base);
    WriteThenGuess(base, compression);
  }


  // ---------------------------------------------------------------- examples

  /** A name without a dot has no extension. */
  lemma NoDotNoExtension(p: string)
    requires '.' !in p
    ensures SplitExt(p).1 == []
  {
  }

  /** A name ending in `.<ext>` for the extension of a supported
      compression is guessed to be compressed with it, when the name has
      something other than dots before that extension. */
  lemma GuessExtension(name: string, stem: string, c: string)
    requires Supported(c) && HasName(stem) && name == stem + "." + Extension(c)
    ensures DetermineCompression(name) == Success(c)
  {
    SplitExtOf(stem, Extension(c));
    DetermineCompressionIff(name, c);
  }

  /** `foo.tar.gz`, `foo.tar.bz2`, `foo.tar.xz` and `foo.tar.lzma` are
      guessed from their last extension. */
  lemma GuessExamples(stem: string, gz: string, bz2: string, xz: string, lzma: string)
    requires stem == "foo.tar" && gz == "gz" && bz2 == "bz2" && xz == "xz" && lzma == "lzma"
    ensures DetermineCompression(stem + "." + gz) == Success("gzip")
    ensures DetermineCompression(stem + "." + bz2) == Success("bzip2")
    ensures DetermineCompression(stem + "." + xz) == Success("xz")
    ensures DetermineCompression(stem + "." + lzma) == Success("lzma")
  {
    EndsInName(stem);
    assert DetermineCompression(stem + "." + gz) == Success("gzip") by {
      GuessExtension(stem + "." + gz, stem, "gzip");
    }
    assert DetermineCompression(stem + "." + bz2) == Success("bzip2") by {
      GuessExtension(stem + "." + bz2, stem, "bzip2");
    }
    assert DetermineCompression(stem + "." + xz) == Success("xz") by {
      GuessExtension(stem + "." + xz, stem, "xz");
    }
    assert DetermineCompression(stem + "." + lzma) == Success("lzma") by {
      GuessExtension(stem + "." + lzma, stem, "lzma");
    }
  }

  /** `foo` has no extension: it is refused. */
  lemma RefuseNoExtension(plain: string)
    requires plain == "foo"
    ensures DetermineCompression(plain) == Failure(CannotGuessCompression(plain))
  {
    NoDotNoExtension(plain);
  }

  /** `bar.baz` has an extension no compression goes with: it is refused. */
  lemma RefuseUnknownExtension(stem: string, e: string)
    requires stem == "bar" && e == "baz"
    ensures DetermineCompression(stem + "." + e) == Failure(CannotGuessCompression(stem + "." + e))
  {
    EndsInName(stem);
    SplitExtOf(stem, e);
    assert ("." + e)[1..] == e;
  }

  /** `make_orig_tarball(".", "pkgfoo", "2.0", compression="bzip2")` writes
      `pkgfoo_2.0.orig.tar.bz2` in the current directory. */
  lemma OrigTarballExample(rundir: string, up: string, ver: string, c: string, ext: string)
    requires rundir == "." && up == "pkgfoo" && ver == "2.0" && c == "bzip2" && ext == "bz2"
    ensures MakeOrigTarball(rundir, up, ver, c, None).value.write.tarball
         == rundir + "/" + OrigName(up, ver) + "." + ext
  {
    OrigTarballNamed(rundir, up, ver, c, None);
    var name := OrigName(up, ver);
    assert name[0] == up[0];
    PathJoinRelative(rundir, name);
  }

  /** Joining a relative name to a directory not ending in `/` puts a `/`
      between them. */
  lemma PathJoinRelative(a: string, b: string)
    requires a != [] && a[|a| - 1] != '/' && b != [] && b[0] != '/'
    ensures PathJoin(a, b) == a + "/" + b
  {
  }

  /** An unknown compression is refused before anything is written. */
  lemma InsaneCompressionExample(c: string)
    requires c == "asfasf"
    ensures MakeOrigTarball(".", "pkgfoo", "2.0", c, None) == Failure(UnknownCompression(c))
  {
  }
}
