/**
 * The scanner commands (src/scanner.c): where the scan is saved and which
 * shell command produces it. ensure_dir() and system() are given as oracles:
 * `dirOk` tells whether ensure_dir() succeeds on a path, `status` gives the
 * status system() returns for a command line.
 */
module Scanner {
  import opened Wrappers
  import opened Text
  import opened Clock

  datatype ScanMode = Pdf | Img

  datatype ScanWorld = ScanWorld(dirOk: string -> bool, status: string -> int)

  /**
   * What one scan call did: its return value, the directories handed to
   * ensure_dir() in order, and the command run (None when none was).
   */
  datatype ScanRun = ScanRun(rc: int, ensured: seq<string>, command: Option<string>)

  /** The name is absolute: its first character is '/'. */
  predicate Absolute(filename: string) {
    filename != [] && filename[0] == '/'
  }

  /**
   * Where the scan goes and which directory of it is created first. An
   * absolute name is copied into the 512-byte buffer and its part before the
   * last '/' is the directory; a relative name is placed under `outDir`.
   */
  function ResolveScanPath(outDir: string, filename: string): (r: (string, Option<string>))
    ensures Absolute(filename) ==> r.0 == Truncate(filename, 511) && r.1.Some?
    ensures Absolute(filename) ==> exists k :: 0 <= k < |r.0| && r.0[k] == '/' && '/' !in r.0[k + 1..] && r.1.value == r.0[..k]
    ensures !Absolute(filename) ==> r == (Truncate(outDir + "/" + filename, 511), None)
  {
    if Absolute(filename) then
      var file := Truncate(filename, 511);
      assert file[0] == '/';
      var k := LastIndexOf(file, '/').value;
      (file, Some(file[..k]))
    else
      (Truncate(outDir + "/" + filename, 511), None)
  }

  /** The command line, as snprintf() writes it into the 1024-byte buffer. */
  function ScanCommand(mode: ScanMode, file: string): (cmd: string)
    ensures |cmd| <= 1023
  {
    match mode
    case Pdf => Truncate("scanimage --format=pnm 2>/dev/null | convert - \"" + file + "\" 2>/dev/null", 1023)
    case Img => Truncate("scanimage --format=png > \"" + file + "\" 2>/dev/null", 1023)
  }

  /**
   * scanner_scan_pdf() / scanner_scan_img(): 1 without running anything when
   * `outDir` cannot be made; otherwise the directory of an absolute name is
   * made too (its result ignored) and the scan command's status is returned
   * unchanged.
   */
  function Scan(world: ScanWorld, mode: ScanMode, outDir: string, filename: string): (r: ScanRun)
    ensures |r.ensured| >= 1 && r.ensured[0] == outDir
    ensures !world.dirOk(outDir) ==> r == ScanRun(1, [outDir], None)
    ensures world.dirOk(outDir) ==> r.command.Some? && r.rc == world.status(r.command.value)
    ensures world.dirOk(outDir) ==> r.command.value == ScanCommand(mode, ResolveScanPath(outDir, filename).0)
    ensures world.dirOk(outDir) ==> (|r.ensured| == 2 <==> Absolute(filename)) && |r.ensured| <= 2
  {
    if !world.dirOk(outDir) then ScanRun(1, [outDir], None)
    else
      var (file, dir) := ResolveScanPath(outDir, filename);
      var cmd := ScanCommand(mode, file);
      ScanRun(world.status(cmd), [outDir] + (if dir.Some? then [dir.value] else []), Some(cmd))
  }

  /** A relative name that fits lands in `outDir`, and the command quotes exactly that path. */
  lemma RelativeScan(world: ScanWorld, outDir: string, filename: string)
    requires world.dirOk(outDir) && !Absolute(filename)
    requires |outDir| + 1 + |filename| <= 511
    ensures Scan(world, Pdf, outDir, filename).command ==
      Some("scanimage --format=pnm 2>/dev/null | convert - \"" + (outDir + "/" + filename) + "\" 2>/dev/null")
    ensures Scan(world, Img, outDir, filename).command ==
      Some("scanimage --format=png > \"" + (outDir + "/" + filename) + "\" 2>/dev/null")
    ensures Scan(world, Pdf, outDir, filename).ensured == [outDir]
    ensures Scan(world, Img, outDir, filename).ensured == [outDir]
  {
    var file := outDir + "/" + filename;
    assert ResolveScanPath(outDir, filename) == (file, None);
  }

  /** An absolute name is used as given, and the directory before its last '/' is made first. */
  lemma AbsoluteScan(outDir: string, dir: string, base: string)
    requires '/' !in base && |dir| + 1 + |base| <= 511
    requires dir == [] || dir[0] == '/'
    ensures var r := ResolveScanPath(outDir, dir + "/" + base); r == (dir + "/" + base, Some(dir))
  {
    var name := dir + "/" + base;
    assert name[|dir|] == '/' && name[|dir| + 1..] == base;
    assert name[..|dir|] == dir;
    LastIndexOfIs(name, '/', |dir|);
  }

  /** strrchr finds the last occurrence: an index holding `c` with no `c` after it is the answer. */
  lemma {:induction false} LastIndexOfIs(s: string, c: char, k: nat)
    requires k < |s| && s[k] == c && c !in s[k + 1..]
    ensures LastIndexOf(s, c) == Some(k)
    decreases |s|
  {
    if k < |s| - 1 {
      assert s[|s| - 1] in s[k + 1..];
      var t := s[..|s| - 1];
      assert t[k + 1..] == s[k + 1..|s| - 1];
      LastIndexOfIs(t, c, k);
    }
  }

  // ---------------------------------------------------------------------------
  // build_output_path

  /** YYYYMMDD for a broken-down time, with the year from 1900 and the month from 0. */
  function DatePart(tm: Tm): string {
    ZeroPad(tm.year + 1900, 4) + ZeroPad(tm.mon + 1, 2) + ZeroPad(tm.mday, 2)
  }

  /** HHMMSS for a broken-down time. */
  function TimePart(tm: Tm): string {
    ZeroPad(tm.hour, 2) + ZeroPad(tm.min, 2) + ZeroPad(tm.sec, 2)
  }

  /** The %04d%02d%02d_%02d%02d%02d stamp. */
  function Stamp(tm: Tm): string {
    DatePart(tm) + "_" + TimePart(tm)
  }

  /**
   * build_output_path(): "<outDir>/scan_<stamp>.<ext>" in a buffer of `size`
   * bytes; None when size is 0 and snprintf() writes nothing.
   */
  function BuildOutputPath(size: nat, outDir: string, tm: Tm, ext: string): (r: Option<string>)
    ensures r.None? <==> size == 0
    ensures r.Some? ==> |r.value| < size && StartsWith(OutputName(outDir, tm, ext), r.value)
    ensures |OutputName(outDir, tm, ext)| < size ==> r == Some(OutputName(outDir, tm, ext))
    ensures size > 0 && |OutputName(outDir, tm, ext)| >= size ==> |r.value| == size - 1
  {
    if size == 0 then None
    else Some(Truncate(OutputName(outDir, tm, ext), size - 1))
  }

  /** The whole name "%s/scan_%04d%02d%02d_%02d%02d%02d.%s" before any cut. */
  function OutputName(outDir: string, tm: Tm, ext: string): string {
    outDir + "/scan_" + Stamp(tm) + "." + ext
  }

  /**
   * For a normal time and a buffer that holds the whole name, the path is
   * out_dir, "/scan_", the 15-character stamp whose fields read back as the
   * time, '.', and the extension.
   */
  lemma OutputPathFields(size: nat, outDir: string, tm: Tm, ext: string)
    requires Normal(tm) && |outDir| + 22 + |ext| < size
    ensures var r := BuildOutputPath(size, outDir, tm, ext);
      && r.Some? && |r.value| == |outDir| + 22 + |ext|
      && r.value[..|outDir|] == outDir
      && r.value[|outDir|..|outDir| + 6] == "/scan_"
      && r.value[|outDir| + 6..|outDir| + 21] == Stamp(tm)
      && r.value[|outDir| + 21] == '.'
      && r.value[|outDir| + 22..] == ext
  {
    StampShape(tm);
    NameLayout(outDir, Stamp(tm), ext);
  }

  /** Where the pieces of "<dir>/scan_<stamp>.<ext>" sit, for a 15-character stamp. */
  lemma NameLayout(dir: string, stamp: string, ext: string)
    requires |stamp| == 15
    ensures var p := dir + "/scan_" + stamp + "." + ext;
      && |p| == |dir| + 22 + |ext|
      && p[..|dir|] == dir && p[|dir|..|dir| + 6] == "/scan_" && p[|dir| + 6..|dir| + 21] == stamp
      && p[|dir| + 21] == '.' && p[|dir| + 22..] == ext
  {
    var q := "/scan_" + stamp + "." + ext;
    var p := dir + "/scan_" + stamp + "." + ext;
    assert p == dir + q;
    assert q[..6] == "/scan_" && q[6..21] == stamp && q[21] == '.' && q[22..] == ext;
    assert p[|dir|..|dir| + 6] == q[..6];
    assert p[|dir| + 6..|dir| + 21] == q[6..21];
    assert p[|dir| + 22..] == q[22..];
  }

  /** The three pieces of a concatenation are found back at their offsets. */
  lemma Pieces(a: string, b: string, c: string)
    ensures (a + b + c)[..|a|] == a
    ensures (a + b + c)[|a|..|a| + |b|] == b
    ensures (a + b + c)[|a| + |b|..] == c
  {
  }

  /** Three two-or-more-digit fields that fit their widths read back from fixed offsets. */
  lemma FieldsReadBack(x: nat, wx: nat, y: nat, z: nat)
    requires 1 <= wx && x < Pow10(wx) && y < 100 && z < 100
    ensures var s := ZeroPad(x, wx) + ZeroPad(y, 2) + ZeroPad(z, 2);
      && |s| == wx + 4 && AllDigits(s)
      && DecValue(s[..wx]) == x && DecValue(s[wx..wx + 2]) == y && DecValue(s[wx + 2..]) == z
  {
    assert Pow10(2) == 100;
    ZeroPadRoundTrip(x, wx);
    ZeroPadRoundTrip(y, 2);
    ZeroPadRoundTrip(z, 2);
    Pieces(ZeroPad(x, wx), ZeroPad(y, 2), ZeroPad(z, 2));
  }

  /** For a normal time the date reads back as year, month and day. */
  lemma DateFields(tm: Tm)
    requires Normal(tm)
    ensures var d := DatePart(tm);
      && |d| == 8 && AllDigits(d)
      && DecValue(d[..4]) == tm.year + 1900 && DecValue(d[4..6]) == tm.mon + 1 && DecValue(d[6..]) == tm.mday
  {
    assert Pow10(4) == 10000 by { assert Pow10(2) == 100; }
    FieldsReadBack(tm.year + 1900, 4, tm.mon + 1, tm.mday);
  }

  /** For a normal time the clock part reads back as hour, minute and second. */
  lemma TimeFields(tm: Tm)
    requires Normal(tm)
    ensures var t := TimePart(tm);
      && |t| == 6 && AllDigits(t)
      && DecValue(t[..2]) == tm.hour && DecValue(t[2..4]) == tm.min && DecValue(t[4..]) == tm.sec
  {
    assert Pow10(2) == 100;
    FieldsReadBack(tm.hour, 2, tm.min, tm.sec);
  }

  /** For a normal time the stamp is 15 characters: the date, '_', the clock part. */
  lemma StampShape(tm: Tm)
    requires Normal(tm)
    ensures var s := Stamp(tm);
      |s| == 15 && s[..8] == DatePart(tm) && s[8] == '_' && s[9..] == TimePart(tm)
  {
    DateFields(tm);
    TimeFields(tm);
    Pieces(DatePart(tm), "_", TimePart(tm));
  }
}
