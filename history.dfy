/**
 * The print history log (src/history.c): its location under HOME, the record
 * history_add() appends, and what history_show() prints. Files are a map from
 * path to contents; whether fopen(path, "a") succeeds is an oracle.
 */
module History {
  import opened Wrappers
  import opened Text
  import opened Clock

  const LogSuffix := "/.programs/bin/lprun/history.log"

  /** history_path(): HOME, or "/tmp" when HOME is unset, followed by the log's place, in a 512-byte buffer. */
  function HistoryPath(home: Option<string>): (p: string)
    ensures |p| <= 511
    ensures home.None? ==> p == "/tmp" + LogSuffix
    ensures home.Some? && |home.value| + |LogSuffix| <= 511 ==> p == home.value + LogSuffix
    ensures StartsWith(home.GetOr("/tmp") + LogSuffix, p)
  {
    Truncate(home.GetOr("/tmp") + LogSuffix, 511)
  }

  /** "YYYY-MM-DD" with the year from 1900 and the month from 0. */
  function DateText(tm: Tm): string {
    ZeroPad(tm.year + 1900, 4) + "-" + ZeroPad(tm.mon + 1, 2) + "-" + ZeroPad(tm.mday, 2)
  }

  /** "HH:MM:SS" */
  function ClockText(tm: Tm): string {
    ZeroPad(tm.hour, 2) + ":" + ZeroPad(tm.min, 2) + ":" + ZeroPad(tm.sec, 2)
  }

  /** "YYYY-MM-DD HH:MM:SS" */
  function TimeStamp(tm: Tm): string {
    DateText(tm) + " " + ClockText(tm)
  }

  /** " | Printer: P | File: F\n" */
  function Details(printer: string, file: string): string {
    " | Printer: " + printer + " | File: " + file + "\n"
  }

  /** The line history_add() writes: "YYYY-MM-DD HH:MM:SS | Printer: P | File: F\n". */
  function Record(tm: Tm, printer: string, file: string): string {
    TimeStamp(tm) + Details(printer, file)
  }

  /** Three zero-padded numbers joined by `sep` read back from fixed offsets. */
  lemma SeparatedFields(x: nat, wx: nat, y: nat, z: nat, sep: char)
    requires 1 <= wx && x < Pow10(wx) && y < 100 && z < 100
    ensures var s := ZeroPad(x, wx) + [sep] + ZeroPad(y, 2) + [sep] + ZeroPad(z, 2);
      && |s| == wx + 6 && s[wx] == sep && s[wx + 3] == sep
      && AllDigits(s[..wx]) && DecValue(s[..wx]) == x
      && AllDigits(s[wx + 1..wx + 3]) && DecValue(s[wx + 1..wx + 3]) == y
      && AllDigits(s[wx + 4..]) && DecValue(s[wx + 4..]) == z
  {
    assert Pow10(2) == 100;
    ZeroPadRoundTrip(x, wx);
    ZeroPadRoundTrip(y, 2);
    ZeroPadRoundTrip(z, 2);
    var s := ZeroPad(x, wx) + [sep] + ZeroPad(y, 2) + [sep] + ZeroPad(z, 2);
    assert s[..wx] == ZeroPad(x, wx);
    assert s[wx + 1..wx + 3] == ZeroPad(y, 2);
    assert s[wx + 4..] == ZeroPad(z, 2);
  }

  /** For a normal time the date is ten characters whose fields read back as year, month and day. */
  lemma DateTextFields(tm: Tm)
    requires Normal(tm)
    ensures var d := DateText(tm);
      && |d| == 10 && d[4] == '-' && d[7] == '-'
      && AllDigits(d[..4]) && DecValue(d[..4]) == tm.year + 1900
      && AllDigits(d[5..7]) && DecValue(d[5..7]) == tm.mon + 1
      && AllDigits(d[8..]) && DecValue(d[8..]) == tm.mday
  {
    assert Pow10(4) == 10000 by { assert Pow10(2) == 100; }
    SeparatedFields(tm.year + 1900, 4, tm.mon + 1, tm.mday, '-');
    assert DateText(tm) == ZeroPad(tm.year + 1900, 4) + ['-'] + ZeroPad(tm.mon + 1, 2) + ['-'] + ZeroPad(tm.mday, 2);
  }

  /** For a normal time the clock text is eight characters whose fields read back as hour, minute and second. */
  lemma ClockTextFields(tm: Tm)
    requires Normal(tm)
    ensures var c := ClockText(tm);
      && |c| == 8 && c[2] == ':' && c[5] == ':'
      && AllDigits(c[..2]) && DecValue(c[..2]) == tm.hour
      && AllDigits(c[3..5]) && DecValue(c[3..5]) == tm.min
      && AllDigits(c[6..]) && DecValue(c[6..]) == tm.sec
  {
    assert Pow10(2) == 100;
    SeparatedFields(tm.hour, 2, tm.min, tm.sec, ':');
    assert ClockText(tm) == ZeroPad(tm.hour, 2) + [':'] + ZeroPad(tm.min, 2) + [':'] + ZeroPad(tm.sec, 2);
  }

  /** For a normal time the stamp is 19 characters: the date, a space, the clock. */
  lemma TimeStampShape(tm: Tm)
    requires Normal(tm)
    ensures var h := TimeStamp(tm);
      |h| == 19 && h[..10] == DateText(tm) && h[10] == ' ' && h[11..] == ClockText(tm)
  {
    DateTextFields(tm);
    ClockTextFields(tm);
  }

  /** The part of a record after the timestamp: the printer and the file behind their labels, then a newline. */
  lemma DetailsShape(printer: string, file: string)
    ensures var t := Details(printer, file);
      && |t| == 12 + |printer| + 9 + |file| + 1
      && t[..12] == " | Printer: " && t[12..12 + |printer|] == printer
      && t[12 + |printer|..21 + |printer|] == " | File: "
      && t[21 + |printer|..|t| - 1] == file && t[|t| - 1] == '\n'
  {
  }

  /**
   * For a normal time a record is the 19-character timestamp, the printer
   * after " | Printer: ", the file after " | File: ", and a newline.
   */
  lemma RecordShape(tm: Tm, printer: string, file: string)
    requires Normal(tm)
    ensures var r := Record(tm, printer, file);
      && |r| == 19 + 12 + |printer| + 9 + |file| + 1
      && r[..10] == DateText(tm) && r[10] == ' ' && r[11..19] == ClockText(tm)
      && r[19..31] == " | Printer: " && r[31..31 + |printer|] == printer
      && r[31 + |printer|..40 + |printer|] == " | File: "
      && r[40 + |printer|..|r| - 1] == file && r[|r| - 1] == '\n'
  {
    TimeStampShape(tm);
    DetailsShape(printer, file);
    var head, tail := TimeStamp(tm), Details(printer, file);
    var p := |printer|;
    assert Record(tm, printer, file) == head + tail;
    SliceLeft(head, tail, 0, 10);
    SliceLeft(head, tail, 11, 19);
    SliceRight(head, tail, 19, 31);
    SliceRight(head, tail, 31, 31 + p);
    SliceRight(head, tail, 31 + p, 40 + p);
    SliceRight(head, tail, 40 + p, |head| + |tail| - 1);
  }

  /** A slice inside the first part of a concatenation. */
  lemma SliceLeft(a: string, b: string, i: nat, j: nat)
    requires i <= j <= |a|
    ensures (a + b)[i..j] == a[i..j]
  {
  }

  /** A slice inside the second part of a concatenation. */
  lemma SliceRight(a: string, b: string, i: nat, j: nat)
    requires |a| <= i <= j <= |a| + |b|
    ensures (a + b)[i..j] == b[i - |a|..j - |a|]
  {
  }

  /** The contents history_show() reads at a path: the file's text, or None when it cannot be opened. */
  function LogAt(files: map<string, string>, path: string): Option<string> {
    if path in files then Some(files[path]) else None
  }

  /** history_show(): "No history found." when the log cannot be opened, otherwise every line echoed unchanged. */
  function HistoryShow(files: map<string, string>, home: Option<string>): (out: string)
    ensures HistoryPath(home) !in files ==> out == "No history found.\n"
    ensures HistoryPath(home) in files ==> out == files[HistoryPath(home)]
  {
    match LogAt(files, HistoryPath(home))
    case None => "No history found.\n"
    case Some(text) => text
  }

  /** The files after appending `text` to `path`, creating it when absent (fopen mode "a"). */
  function Appended(files: map<string, string>, path: string, text: string): (r: map<string, string>)
    ensures path in r && r[path] == LogAt(files, path).GetOr("") + text
    ensures forall p :: p in files && p != path ==> p in r && r[p] == files[p]
    ensures r.Keys == files.Keys + {path}
  {
    files[path := LogAt(files, path).GetOr("") + text]
  }

  /** After a record is added, showing the history prints the earlier log followed by the record. */
  lemma ShowAfterAdd(files: map<string, string>, home: Option<string>, tm: Tm, printer: string, file: string)
    ensures var rec := Record(tm, printer, file);
      HistoryShow(Appended(files, HistoryPath(home), rec), home) == LogAt(files, HistoryPath(home)).GetOr("") + rec
  {
  }

  /** The file system the history log lives in. */
  class LogStore {
    /** Whether fopen(path, "a") succeeds. */
    const appendOk: string -> bool
    var files: map<string, string>

    constructor (appendOk: string -> bool, files: map<string, string>)
      ensures this.appendOk == appendOk && this.files == files
    {
      this.appendOk := appendOk;
      this.files := files;
    }

    /** history_add(): one record appended to the log at `tm`; nothing at all when the log cannot be opened. */
    method HistoryAdd(home: Option<string>, tm: Tm, printer: string, file: string)
      modifies this`files
      ensures appendOk(HistoryPath(home)) ==> files == Appended(old(files), HistoryPath(home), Record(tm, printer, file))
      ensures !appendOk(HistoryPath(home)) ==> files == old(files)
    {
      var path := HistoryPath(home);
      if !appendOk(path) {
        return;
      }
      files := Appended(files, path, Record(tm, printer, file));
    }
  }
}
