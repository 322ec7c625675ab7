/**
 * The command-line front end of lprun (src/lprun.c, main): the argv parse
 * loop, the validation exit codes, the choice between a CUPS queue and a raw
 * TCP printer, document preparation, and the CUPS copy loop.
 *
 * MainPlan is the reference definition of what main decides from its
 * arguments and surroundings; Run is main itself, step by step, proved to
 * carry that plan out (Performed). The external tools, the document
 * converters and the environment are inputs (Env); the spooler and the
 * operating system are the Cups and Os objects.
 */
module Lprun {
  import opened Wrappers
  import opened Text
  import opened Utils
  import opened Discovery
  import opened Platform
  import opened RawPrint
  import opened Scanner
  import opened Spool

  /** color_mode: 0 leaves the choice to the printer, 1 asks for colour, 2 for grayscale. */
  datatype ColorMode = Auto | Color | Grayscale

  /** The locals the parse loop fills in; None stands for a NULL pointer. */
  datatype Options = Options(
    printer: Option<string>, ip: Option<string>, port: int,
    text: Option<string>, image: Option<string>, file: Option<string>,
    copies: int, color: ColorMode, outDir: string)

  /** The initial values of main's locals. */
  const Defaults := Options(None, None, 9100, None, None, None, 1, Auto, "")

  /** What main returns: an exit code, or a crash (undefined behaviour) where the source dereferences NULL. */
  datatype Status = Exit(code: int) | Crash

  /** The output of the discovery tools; None where popen() or getifaddrs() failed. */
  datatype Probes = Probes(
    lpstat: Option<seq<string>>, avahi: Option<seq<string>>,
    ifaddrs: Option<seq<IfAddr>>, nmap: string -> Option<seq<string>>)

  /** What the program reads from its surroundings. */
  datatype Env = Env(
    /** getenv("HOME") */
    home: Option<string>,
    /** The inputs of printer discovery. */
    probes: Probes,
    /** ensure_dir() and system() for the scanner commands. */
    scan: ScanWorld,
    /** create_temp_ps_from_text(), convert_image_to_ps(), convert_pdf_to_ps(): a temporary file name or NULL. */
    textToPs: (string, ColorMode) -> Option<string>,
    imageToPs: (string, ColorMode) -> Option<string>,
    pdfToPs: (string, ColorMode) -> Option<string>)

  /** Where the document goes: a CUPS queue or a raw TCP printer at an address. */
  datatype Destination = Queue(name: string) | Host(ip: string)

  /**
   * What main goes on to do once every decision is made: finish with a
   * status, submit `job` once per copy to CUPS (pausing between copies when
   * `paced`), or send the file to a raw printer once per copy.
   */
  datatype Plan =
    | Finish(status: Status)
    | PrintCups(job: Submission, copies: int, paced: bool)
    | PrintRaw(ip: string, port: int, out: string, copies: int)

  // ---------------------------------------------------------------------------
  // The parse loop (src/lprun.c:222-273)

  /** What the parse loop recognises a token as. */
  datatype Token =
    | PrinterOpt | IpOpt | PortOpt | TextOpt | ImageOpt | FileOpt | CopiesOpt | OutDirOpt
    | ColorOpt | GrayscaleOpt | NotAnOption

  /** The strcmp() tests of the parse loop. */
  function Classify(a: string): Token {
    if a == "--printer" then PrinterOpt
    else if a == "--ip" then IpOpt
    else if a == "--port" then PortOpt
    else if a == "--text" then TextOpt
    else if a == "--image" then ImageOpt
    else if a == "--file" then FileOpt
    else if a == "--copies" then CopiesOpt
    else if a == "--color" then ColorOpt
    else if a == "--grayscale" then GrayscaleOpt
    else if a == "--out-dir" then OutDirOpt
    else NotAnOption
  }

  /** How each option is written on the command line. */
  function Spelling(t: Token): string {
    match t
    case PrinterOpt => "--printer"
    case IpOpt => "--ip"
    case PortOpt => "--port"
    case TextOpt => "--text"
    case ImageOpt => "--image"
    case FileOpt => "--file"
    case CopiesOpt => "--copies"
    case OutDirOpt => "--out-dir"
    case ColorOpt => "--color"
    case GrayscaleOpt => "--grayscale"
    case NotAnOption => ""
  }

  /** Each option is recognised from its spelling, and the subcommand words are not options. */
  lemma ClassifySpelling(t: Token)
    ensures t != NotAnOption ==> Classify(Spelling(t)) == t
    ensures Classify("--help") == NotAnOption && Classify("--list") == NotAnOption
    ensures Classify("history") == NotAnOption && Classify("scanner") == NotAnOption
  {
  }

  /** The options that consume the following argument. */
  const Valued: set<Token> := {PrinterOpt, IpOpt, PortOpt, TextOpt, ImageOpt, FileOpt, CopiesOpt, OutDirOpt}

  /** The options that stand alone. */
  const Flags: set<Token> := {ColorOpt, GrayscaleOpt}

  /** --copies: atoi's value, raised to 1 when it is smaller. */
  function ClampCopies(n: int): (c: int)
    ensures c >= 1 && (n >= 1 ==> c == n) && (n < 1 ==> c == 1)
  {
    if n < 1 then 1 else n
  }

  /** The effect of a value option on the locals. */
  function SetValue(o: Options, t: Token, v: string): (r: Options)
    requires t in Valued
    ensures r.color == o.color
  {
    match t
    case PrinterOpt => o.(printer := Some(v))
    case IpOpt => o.(ip := Some(v))
    case PortOpt => o.(port := Atoi(v))
    case TextOpt => o.(text := Some(v))
    case ImageOpt => o.(image := Some(v))
    case FileOpt => o.(file := Some(v))
    case CopiesOpt => o.(copies := ClampCopies(Atoi(v)))
    case OutDirOpt => o.(outDir := Truncate(v, 511))
  }

  /**
   * Reference definition of the parse loop from index i with the locals `o`:
   * a value option with a following argument takes it, --color and --grayscale
   * refuse each other, anything else (an unknown token, or a value option in
   * last place) gives exit code 1.
   */
  function ParseFrom(argv: seq<string>, i: nat, o: Options): Result<Options, int>
    decreases |argv| - i
  {
    if i >= |argv| then Ok(o)
    else
      var t := Classify(argv[i]);
      if t in Valued && i + 1 < |argv| then ParseFrom(argv, i + 2, SetValue(o, t, argv[i + 1]))
      else if t == ColorOpt then
        if o.color == Grayscale then Err(1) else ParseFrom(argv, i + 1, o.(color := Color))
      else if t == GrayscaleOpt then
        if o.color == Color then Err(1) else ParseFrom(argv, i + 1, o.(color := Grayscale))
      else Err(1)
  }

  /** The parse loop of main, over argv[1..]. */
  method ParseOptions(argv: seq<string>) returns (r: Result<Options, int>)
    ensures r == ParseFrom(argv, 1, Defaults)
  {
    var printer: Option<string>, ip: Option<string>, port := None, None, 9100;
    var text: Option<string>, image: Option<string>, file: Option<string> := None, None, None;
    var copies, color, outDir := 1, Auto, "";
    var i := 1;
    while i < |argv|
      invariant 1 <= i
      invariant ParseFrom(argv, i, Options(printer, ip, port, text, image, file, copies, color, outDir))
             == ParseFrom(argv, 1, Defaults)
      decreases |argv| - i
    {
      var t := Classify(argv[i]);
      ghost var before := Options(printer, ip, port, text, image, file, copies, color, outDir);
      if t in Valued && i + 1 < |argv| {
        i := i + 1;
        if t == PrinterOpt {
          printer := Some(argv[i]);
        } else if t == IpOpt {
          ip := Some(argv[i]);
        } else if t == PortOpt {
          port := Atoi(argv[i]);
        } else if t == TextOpt {
          text := Some(argv[i]);
        } else if t == ImageOpt {
          image := Some(argv[i]);
        } else if t == FileOpt {
          file := Some(argv[i]);
        } else if t == CopiesOpt {
          copies := Atoi(argv[i]);
          if copies < 1 {
            copies := 1;
          }
        } else {
          outDir := Truncate(argv[i], 511);
        }
        assert Options(printer, ip, port, text, image, file, copies, color, outDir) == SetValue(before, t, argv[i]);
      } else if t == ColorOpt {
        if color == Grayscale {
          return Err(1);
        }
        color := Color;
      } else if t == GrayscaleOpt {
        if color == Color {
          return Err(1);
        }
        color := Grayscale;
      } else {
        return Err(1);
      }
      i := i + 1;
    }
    return Ok(Options(printer, ip, port, text, image, file, copies, color, outDir));
  }

  /** The index of the token the parse loop looks at after the one at i. */
  function Next(argv: seq<string>, i: nat, valued: set<Token>): (j: nat)
    requires i < |argv|
    ensures i < j <= i + 2
  {
    if Classify(argv[i]) in valued && i + 1 < |argv| then i + 2 else i + 1
  }

  /** Every token the parse loop looks at from i on is a flag, or a value option followed by its value. */
  predicate AllKnown(argv: seq<string>, i: nat, valued: set<Token>, flags: set<Token>)
    decreases |argv| - i
  {
    i >= |argv| ||
    ((Classify(argv[i]) in flags || (Classify(argv[i]) in valued && i + 1 < |argv|)) &&
     AllKnown(argv, Next(argv, i, valued), valued, flags))
  }

  /** The parse loop, from i on, looks at a token equal to `word` (as an option, not as the value of one). */
  predicate Reaches(argv: seq<string>, i: nat, valued: set<Token>, word: string)
    decreases |argv| - i
  {
    i < |argv| && (argv[i] == word || Reaches(argv, Next(argv, i, valued), valued, word))
  }

  /** A token that is reached is classified by what it is. */
  predicate ReachesToken(argv: seq<string>, i: nat, valued: set<Token>, t: Token)
    decreases |argv| - i
  {
    i < |argv| && (Classify(argv[i]) == t || ReachesToken(argv, Next(argv, i, valued), valued, t))
  }

  /** Reaching the spelling of --color or --grayscale is reaching the token it is classified as. */
  lemma {:induction false} ReachesFlag(argv: seq<string>, i: nat, valued: set<Token>)
    ensures Reaches(argv, i, valued, "--color") <==> ReachesToken(argv, i, valued, ColorOpt)
    ensures Reaches(argv, i, valued, "--grayscale") <==> ReachesToken(argv, i, valued, GrayscaleOpt)
    decreases |argv| - i
  {
    if i < |argv| {
      ReachesFlag(argv, Next(argv, i, valued), valued);
    }
  }

  /** Every failure of the parse loop has exit code 1. */
  lemma {:induction false} ParseErrorCode(argv: seq<string>, i: nat, o: Options)
    ensures ParseFrom(argv, i, o).Err? ==> ParseFrom(argv, i, o).error == 1
    decreases |argv| - i
  {
    if i < |argv| {
      var t := Classify(argv[i]);
      if t in Valued && i + 1 < |argv| {
        ParseErrorCode(argv, i + 2, SetValue(o, t, argv[i + 1]));
      } else if t == ColorOpt {
        ParseErrorCode(argv, i + 1, o.(color := Color));
      } else if t == GrayscaleOpt {
        ParseErrorCode(argv, i + 1, o.(color := Grayscale));
      }
    }
  }

  /**
   * Over tokens: the parse succeeds exactly when every token is known and the
   * colour flags, counting the mode already set, do not include both colours.
   */
  lemma {:induction false} ParseAcceptsTokens(argv: seq<string>, i: nat, o: Options)
    ensures ParseFrom(argv, i, o).Ok? <==>
      && AllKnown(argv, i, Valued, Flags)
      && !((o.color == Color || ReachesToken(argv, i, Valued, ColorOpt)) &&
           (o.color == Grayscale || ReachesToken(argv, i, Valued, GrayscaleOpt)))
    decreases |argv| - i
  {
    if i < |argv| {
      var t := Classify(argv[i]);
      if t in Valued && i + 1 < |argv| {
        ParseAcceptsTokens(argv, i + 2, SetValue(o, t, argv[i + 1]));
      } else if t == ColorOpt {
        ParseAcceptsTokens(argv, i + 1, o.(color := Color));
      } else if t == GrayscaleOpt {
        ParseAcceptsTokens(argv, i + 1, o.(color := Grayscale));
      }
    }
  }

  /**
   * The parse succeeds exactly when every token it looks at is known and the
   * colour flags, counting the mode already set, do not include both --color
   * and --grayscale; otherwise the exit code is 1.
   */
  lemma ParseAccepts(argv: seq<string>, i: nat, o: Options)
    ensures ParseFrom(argv, i, o).Ok? <==>
      && AllKnown(argv, i, Valued, Flags)
      && !((o.color == Color || Reaches(argv, i, Valued, "--color")) &&
           (o.color == Grayscale || Reaches(argv, i, Valued, "--grayscale")))
    ensures ParseFrom(argv, i, o).Err? ==> ParseFrom(argv, i, o).error == 1
  {
    ParseAcceptsTokens(argv, i, o);
    ParseErrorCode(argv, i, o);
    ReachesFlag(argv, i, Valued);
  }

  /** From the initial locals: --color and --grayscale together, in either order, are refused; either one alone, repeated or not, is not. */
  lemma ColorConflict(argv: seq<string>)
    ensures ParseFrom(argv, 1, Defaults).Ok? <==>
      AllKnown(argv, 1, Valued, Flags) &&
      !(Reaches(argv, 1, Valued, "--color") && Reaches(argv, 1, Valued, "--grayscale"))
  {
    ParseAccepts(argv, 1, Defaults);
  }

  /** The copy count the parse produces is at least 1 whenever the one it starts from is. */
  lemma {:induction false} ParsedCopies(argv: seq<string>, i: nat, o: Options)
    requires o.copies >= 1 && ParseFrom(argv, i, o).Ok?
    ensures ParseFrom(argv, i, o).value.copies >= 1
    decreases |argv| - i
  {
    if i < |argv| {
      var t := Classify(argv[i]);
      if t in Valued && i + 1 < |argv| {
        ParsedCopies(argv, i + 2, SetValue(o, t, argv[i + 1]));
      } else if t == ColorOpt {
        ParsedCopies(argv, i + 1, o.(color := Color));
      } else if t == GrayscaleOpt {
        ParsedCopies(argv, i + 1, o.(color := Grayscale));
      }
    }
  }

  /** --copies keeps a count of at least 1 and turns anything smaller, text without a digit included, into 1. */
  lemma CopiesClamp(o: Options, v: string)
    ensures SetValue(o, CopiesOpt, v).copies >= 1
    ensures Atoi(v) >= 1 ==> SetValue(o, CopiesOpt, v).copies == Atoi(v)
    ensures Atoi(v) < 1 ==> SetValue(o, CopiesOpt, v).copies == 1
    ensures (forall k :: 0 <= k < |v| ==> !IsDigit(v[k])) ==> SetValue(o, CopiesOpt, v).copies == 1
  {
    if forall k :: 0 <= k < |v| ==> !IsDigit(v[k]) {
      var t := DropSpaces(v);
      assert forall k :: 0 <= k < |t| ==> t[k] == v[|v| - |t| + k];
      AtoiNoDigits(v);
    }
  }

  /** The string-valued locals, by the option that sets them. */
  function Field(o: Options, t: Token): Option<string> {
    match t
    case PrinterOpt => o.printer
    case IpOpt => o.ip
    case TextOpt => o.text
    case ImageOpt => o.image
    case _ => o.file
  }

  /** Independent account of one option: the value after its last occurrence that the parse loop reaches, or `current`. */
  function LastValue(argv: seq<string>, i: nat, valued: set<Token>, t: Token, current: Option<string>): Option<string>
    decreases |argv| - i
  {
    if i >= |argv| then current
    else if Classify(argv[i]) == t && i + 1 < |argv| then LastValue(argv, i + 2, valued, t, Some(argv[i + 1]))
    else LastValue(argv, Next(argv, i, valued), valued, t, current)
  }

  /** A later occurrence of --printer, --ip, --text, --image or --file overwrites an earlier one. */
  lemma {:induction false} LastValueWins(argv: seq<string>, i: nat, o: Options, t: Token)
    requires t in {PrinterOpt, IpOpt, TextOpt, ImageOpt, FileOpt}
    requires ParseFrom(argv, i, o).Ok?
    ensures Field(ParseFrom(argv, i, o).value, t) == LastValue(argv, i, Valued, t, Field(o, t))
    decreases |argv| - i
  {
    if i < |argv| {
      var a := Classify(argv[i]);
      if a in Valued && i + 1 < |argv| {
        LastValueWins(argv, i + 2, SetValue(o, a, argv[i + 1]), t);
      } else if a == ColorOpt {
        LastValueWins(argv, i + 1, o.(color := Color), t);
      } else if a == GrayscaleOpt {
        LastValueWins(argv, i + 1, o.(color := Grayscale), t);
      }
    }
  }

  /** A token that is not an option makes the parse fail once the loop reaches it. */
  lemma {:induction false} NotKnownWhenReached(argv: seq<string>, i: nat, valued: set<Token>, flags: set<Token>, word: string)
    requires Classify(word) !in valued && Classify(word) !in flags
    requires Reaches(argv, i, valued, word)
    ensures !AllKnown(argv, i, valued, flags)
    decreases |argv| - i
  {
    if argv[i] != word {
      NotKnownWhenReached(argv, Next(argv, i, valued), valued, flags, word);
    }
  }

  // ---------------------------------------------------------------------------
  // The decisions of main (src/lprun.c:169-219, 276-358, 365, 421)

  const ScanDirSuffix := "/.local/share/lprun/scans"

  /**
   * The scanner subcommand: too few arguments give 1; HOME is copied into the
   * output directory before the mode is looked at, so an unset HOME crashes;
   * --pdf and --img scan, any other mode gives 1.
   */
  function ScannerStatus(argv: seq<string>, env: Env): (st: Status)
    requires |argv| >= 2
    ensures |argv| < 4 ==> st == Exit(1)
    ensures |argv| >= 4 && env.home.None? ==> st == Crash
    ensures |argv| >= 4 && env.home.Some? && argv[2] != "--pdf" && argv[2] != "--img" ==> st == Exit(1)
    ensures |argv| >= 4 && env.home.Some? && (argv[2] == "--pdf" || argv[2] == "--img") ==>
      st == Exit(Scan(env.scan, if argv[2] == "--pdf" then Pdf else Img, env.home.value + ScanDirSuffix, argv[3]).rc)
  {
    if |argv| < 4 then Exit(1)
    else if env.home.None? then Crash
    else
      var outDir := env.home.value + ScanDirSuffix;
      if argv[2] == "--pdf" then Exit(Scan(env.scan, Pdf, outDir, argv[3]).rc)
      else if argv[2] == "--img" then Exit(Scan(env.scan, Img, outDir, argv[3]).rc)
      else Exit(1)
  }

  /**
   * Where the job goes: a given --printer, else a given --ip, else the first
   * CUPS queue lpstat lists, else the address discovery finds; exit code 3
   * when there is none.
   */
  function Route(printer: Option<string>, ip: Option<string>, probes: Probes): Result<Destination, int> {
    if printer.Some? then Ok(Queue(printer.value))
    else if ip.Some? then Ok(Host(ip.value))
    else match DiscoverCupsPrinter(probes.lpstat)
      case Some(name) => Ok(Queue(name))
      case None =>
        match DiscoverPrinterIp(probes.avahi, probes.ifaddrs, probes.nmap)
        case Some(found) => Ok(Host(found))
        case None => Err(3)
  }

  predicate NoContent(o: Options) {
    o.text.None? && o.image.None? && o.file.None?
  }

  /**
   * The file to print: text is rendered, else the image converted, else a
   * file whose name ends in ".pdf" (in any case) is converted and any other
   * file used as it is; a failed conversion gives 4, 5 or 6.
   */
  function Prepare(o: Options, env: Env): Result<string, int>
    requires !NoContent(o)
  {
    if o.text.Some? then
      match env.textToPs(o.text.value, o.color) case Some(out) => Ok(out) case None => Err(4)
    else if o.image.Some? then
      match env.imageToPs(o.image.value, o.color) case Some(out) => Ok(out) case None => Err(5)
    else if EndsWithCiSpec(o.file, Some(".pdf")) then
      match env.pdfToPs(o.file.value, o.color) case Some(out) => Ok(out) case None => Err(6)
    else Ok(o.file.value)
  }

  /** What main does once the destination and the file to print are known. */
  function PrintPlan(dest: Destination, out: string, o: Options): Plan {
    match dest
    case Queue(name) => PrintCups(JobOf(name, out, o.color), o.copies, true)
    case Host(addr) => PrintRaw(addr, o.port, out, o.copies)
  }

  /** What main does with parsed options that name something to print. */
  function DeliveryPlan(o: Options, env: Env): Plan
    requires !NoContent(o)
  {
    match Route(o.printer, o.ip, env.probes)
    case Err(code) => Finish(Exit(code))
    case Ok(dest) =>
      match Prepare(o, env)
      case Err(code) => Finish(Exit(code))
      case Ok(out) => PrintPlan(dest, out, o)
  }

  /** Reference definition of what main decides. */
  function MainPlan(argv: seq<string>, env: Env): Plan {
    if |argv| < 2 then Finish(Exit(1))
    else if argv[1] == "--help" || argv[1] == "--list" || argv[1] == "history" then Finish(Exit(0))
    else if argv[1] == "scanner" then Finish(ScannerStatus(argv, env))
    else match ParseFrom(argv, 1, Defaults)
      case Err(code) => Finish(Exit(code))
      case Ok(o) => if NoContent(o) then Finish(Exit(2)) else DeliveryPlan(o, env)
  }

  /** Every exit code main decides on by itself is one of 0 to 6, or the status of a scan. */
  lemma FinishCodes(argv: seq<string>, env: Env)
    requires MainPlan(argv, env).Finish? && MainPlan(argv, env).status.Exit?
    ensures var c := MainPlan(argv, env).status.code;
      0 <= c <= 6 || (|argv| >= 4 && argv[1] == "scanner" && env.home.Some? &&
        exists m :: c == Scan(env.scan, m, env.home.value + ScanDirSuffix, argv[3]).rc)
  {
    if |argv| >= 2 && argv[1] !in {"--help", "--list", "history", "scanner"} {
      ParseErrorCode(argv, 1, Defaults);
    } else if |argv| >= 4 && argv[1] == "scanner" && env.home.Some? && (argv[2] == "--pdf" || argv[2] == "--img") {
      var m := if argv[2] == "--pdf" then Pdf else Img;
      assert MainPlan(argv, env).status.code == Scan(env.scan, m, env.home.value + ScanDirSuffix, argv[3]).rc;
    }
  }

  /** --help, --list, history and scanner are commands only as the first argument: later on the parse refuses them. */
  lemma LateCommandRejected(argv: seq<string>, env: Env, command: string)
    requires command in {"--help", "--list", "history", "scanner"}
    requires |argv| >= 2 && argv[1] !in {"--help", "--list", "history", "scanner"}
    requires Reaches(argv, 1, Valued, command)
    ensures MainPlan(argv, env) == Finish(Exit(1))
  {
    ClassifySpelling(NotAnOption);
    NotKnownWhenReached(argv, 1, Valued, Flags, command);
    ParseAcceptsTokens(argv, 1, Defaults);
    ParseErrorCode(argv, 1, Defaults);
  }

  /** Without text, image or file the exit code is 2, whatever discovery would find. */
  lemma NothingToPrint(argv: seq<string>, env: Env)
    requires |argv| >= 2 && argv[1] !in {"--help", "--list", "history", "scanner"}
    requires ParseFrom(argv, 1, Defaults).Ok? && NoContent(ParseFrom(argv, 1, Defaults).value)
    ensures MainPlan(argv, env) == Finish(Exit(2))
  {
  }

  /** A given --printer or --ip makes the discovery tools irrelevant. */
  lemma ExplicitTargetSkipsDiscovery(o: Options, env: Env, probes: Probes)
    requires !NoContent(o) && (o.printer.Some? || o.ip.Some?)
    ensures DeliveryPlan(o, env) == DeliveryPlan(o, env.(probes := probes))
  {
    assert Route(o.printer, o.ip, env.probes) == Route(o.printer, o.ip, probes);
    assert Prepare(o, env) == Prepare(o, env.(probes := probes));
  }

  /** With both --printer and --ip the CUPS path is taken, with the given queue. */
  lemma CupsBeatsRaw(o: Options, env: Env)
    requires !NoContent(o) && o.printer.Some? && o.ip.Some?
    ensures !DeliveryPlan(o, env).PrintRaw?
    ensures DeliveryPlan(o, env).PrintCups? ==> DeliveryPlan(o, env).job.printer == o.printer.value
  {
    assert Route(o.printer, o.ip, env.probes) == Ok(Queue(o.printer.value));
  }

  /** Without a target, a CUPS queue from lpstat is preferred to any network address; finding neither gives 3. */
  lemma CupsDiscoveryPreferred(printer: Option<string>, ip: Option<string>, probes: Probes)
    requires printer.None? && ip.None?
    ensures DiscoverCupsPrinter(probes.lpstat).Some? ==> Route(printer, ip, probes) == Ok(Queue(DiscoverCupsPrinter(probes.lpstat).value))
    ensures Route(printer, ip, probes).Err? <==>
      DiscoverCupsPrinter(probes.lpstat).None? && DiscoverPrinterIp(probes.avahi, probes.ifaddrs, probes.nmap).None?
    ensures Route(printer, ip, probes).Err? ==> Route(printer, ip, probes).error == 3
  {
  }

  /** Text wins over image and file: only the text renderer is consulted. */
  lemma TextFirst(o: Options, env: Env, imageToPs: (string, ColorMode) -> Option<string>, pdfToPs: (string, ColorMode) -> Option<string>)
    requires o.text.Some?
    ensures Prepare(o, env) == Prepare(o, env.(imageToPs := imageToPs, pdfToPs := pdfToPs))
    ensures Prepare(o, env).Err? <==> env.textToPs(o.text.value, o.color).None?
  {
  }

  /** A file whose name does not end in ".pdf" (ignoring case) is printed as it is; one that does is converted. */
  lemma FilePassedThrough(o: Options, env: Env)
    requires o.text.None? && o.image.None? && o.file.Some?
    ensures !EndsWithCiSpec(o.file, Some(".pdf")) ==> Prepare(o, env) == Ok(o.file.value)
    ensures EndsWithCiSpec(o.file, Some(".pdf")) ==>
      Prepare(o, env) == (match env.pdfToPs(o.file.value, o.color) case Some(out) => Ok(out) case None => Err(6))
  {
  }

  // ---------------------------------------------------------------------------
  // The CUPS copy loop (src/lprun.c:374-411)

  const JobTitle := "lprun-job"
  const CopyDelay: nat := 200000

  /** The cupsAddOption() pairs for a colour mode. */
  function ColorOptions(color: ColorMode): (opts: seq<(string, string)>)
    ensures color == Auto <==> opts == []
    ensures color != Auto ==> |opts| == 2 && opts[0].0 == "ColorModel" && opts[1].0 == "ColorSpace"
  {
    match color
    case Auto => []
    case Color => [("ColorModel", "RGB"), ("ColorSpace", "sRGB")]
    case Grayscale => [("ColorModel", "Gray"), ("ColorSpace", "Gray")]
  }

  /** The cupsPrintFile() call of one copy: the queue, the prepared file, the title "lprun-job" and the colour options. */
  function JobOf(printer: string, out: string, color: ColorMode): (sub: Submission)
    ensures sub.printer == printer && sub.file == out && sub.title == JobTitle && sub.options == ColorOptions(color)
  {
    Submission(printer, out, JobTitle, ColorOptions(color))
  }

  /** max(copies, 0): how many times the copy loop may go round. */
  function Rounds(copies: int): (n: nat)
    ensures copies >= 0 ==> n == copies
    ensures copies < 0 ==> n == 0
  {
    if copies < 0 then 0 else copies
  }

  /** The exit code of the CUPS path: 0 when every copy is accepted, 20 at the first refusal. */
  function CupsCode(jobIds: nat -> int, start: nat, copies: int): (rc: int)
    ensures rc == 0 <==> forall c :: start <= c < start + Rounds(copies) ==> jobIds(c) > 0
    ensures rc != 0 ==> rc == 20
  {
    if Accepted(jobIds, start, Rounds(copies)) == Rounds(copies) then 0 else 20
  }

  /** How many submissions the CUPS path makes: every copy, or up to and including the refused one. */
  function Submissions(jobIds: nat -> int, start: nat, copies: int): (m: nat)
    ensures m <= Rounds(copies)
    ensures m == Rounds(copies) || m == Accepted(jobIds, start, Rounds(copies)) + 1
  {
    var k := Accepted(jobIds, start, Rounds(copies));
    if k == Rounds(copies) then k else k + 1
  }

  /** How many pauses the CUPS path makes: one after each accepted copy but the last. */
  function Pauses(jobIds: nat -> int, start: nat, copies: int): (p: nat)
    ensures p <= Accepted(jobIds, start, Rounds(copies))
    ensures p < Accepted(jobIds, start, Rounds(copies)) ==> CupsCode(jobIds, start, copies) == 0 && p == Rounds(copies) - 1
  {
    var k := Accepted(jobIds, start, Rounds(copies));
    if k == Rounds(copies) && k > 0 then k - 1 else k
  }

  /**
   * One round of the copy loop for copy i: the submission with the colour
   * options and the title "lprun-job", and, when it is accepted and more
   * copies follow, the 200 ms pause.
   */
  method CopyRound(cups: Cups, os: Os, printer: string, out: string, color: ColorMode, i: int, copies: int)
    returns (accepted: bool)
    modifies cups`submitted, os`sleeps
    ensures accepted <==> cups.jobIds(|old(cups.submitted)|) > 0
    ensures cups.submitted == old(cups.submitted) + [JobOf(printer, out, color)]
    ensures os.sleeps == old(os.sleeps) + (if accepted && i < copies - 1 then [CopyDelay] else [])
  {
    var options := ColorOptions(color);
    var job := cups.PrintFile(printer, out, JobTitle, options);
    if job <= 0 {
      return false;
    }
    if i < copies - 1 {
      os.Sleep(CopyDelay);
    }
    return true;
  }

  /**
   * The copy loop: a round per copy, stopping with 20 at the first job id not
   * above 0, counting accepted copies, pausing only between copies.
   */
  method SubmitCopies(cups: Cups, os: Os, printer: string, out: string, copies: int, color: ColorMode)
    returns (rc: int, successful: nat)
    modifies cups`submitted, os`sleeps
    ensures var start := |old(cups.submitted)|;
      && successful <= Rounds(copies)
      && (forall c :: start <= c < start + successful ==> cups.jobIds(c) > 0)
      && (rc == 0 || rc == 20)
      && (rc == 0 ==> successful == Rounds(copies))
      && (rc == 20 ==> successful < Rounds(copies) && cups.jobIds(start + successful) <= 0)
    ensures cups.submitted == old(cups.submitted) + Repeat(JobOf(printer, out, color), if rc == 0 then successful else successful + 1)
    ensures os.sleeps == old(os.sleeps) + Repeat(CopyDelay, if rc == 0 && successful > 0 then successful - 1 else successful)
  {
    ghost var start := |cups.submitted|;
    ghost var sub := JobOf(printer, out, color);
    rc, successful := 0, 0;
    var i := 0;
    while i < copies
      invariant 0 <= i && (copies >= 0 ==> i <= copies) && (copies < 0 ==> i == 0)
      invariant successful == i
      invariant forall c :: start <= c < start + i ==> cups.jobIds(c) > 0
      invariant cups.submitted == old(cups.submitted) + Repeat(sub, i)
      invariant os.sleeps == old(os.sleeps) + Repeat(CopyDelay, if i > 0 && i == copies then i - 1 else i)
      decreases copies - i
    {
      var accepted := CopyRound(cups, os, printer, out, color, i, copies);
      RepeatMore(sub, i);
      if !accepted {
        rc := 20;
        break;
      }
      successful := successful + 1;
      RepeatMore(CopyDelay, i);
      i := i + 1;
    }
  }

  /** What the copy loop's outcome means in terms of the spooler's answers. */
  lemma CopyLoopOutcome(jobIds: nat -> int, start: nat, copies: int, rc: int, successful: nat)
    requires successful <= Rounds(copies)
    requires forall c :: start <= c < start + successful ==> jobIds(c) > 0
    requires rc == 0 || rc == 20
    requires rc == 0 ==> successful == Rounds(copies)
    requires rc == 20 ==> successful < Rounds(copies) && jobIds(start + successful) <= 0
    ensures successful == Accepted(jobIds, start, Rounds(copies)) && rc == CupsCode(jobIds, start, copies)
    ensures Submissions(jobIds, start, copies) == (if rc == 0 then successful else successful + 1)
    ensures Pauses(jobIds, start, copies) == (if rc == 0 && successful > 0 then successful - 1 else successful)
  {
    AcceptedUnique(jobIds, start, Rounds(copies), successful);
  }

  /** Every copy accepted: exit code 0, one submission and one count per copy, and one pause fewer than copies. */
  lemma AllCopiesAccepted(jobIds: nat -> int, start: nat, copies: int)
    requires copies >= 1
    requires forall c :: start <= c < start + copies ==> jobIds(c) > 0
    ensures CupsCode(jobIds, start, copies) == 0
    ensures Accepted(jobIds, start, copies) == copies
    ensures Submissions(jobIds, start, copies) == copies && Pauses(jobIds, start, copies) == copies - 1
  {
    AcceptedAll(jobIds, start, copies);
  }

  /** A refusal of copy k (counting from 0) after k acceptances: exit code 20, k+1 submissions, k counted, k pauses. */
  lemma RefusedCopy(jobIds: nat -> int, start: nat, copies: int, k: nat)
    requires k < copies
    requires forall c :: start <= c < start + k ==> jobIds(c) > 0
    requires jobIds(start + k) <= 0
    ensures CupsCode(jobIds, start, copies) == 20
    ensures Accepted(jobIds, start, copies) == k
    ensures Submissions(jobIds, start, copies) == k + 1 && Pauses(jobIds, start, copies) == k
  {
    AcceptedUnique(jobIds, start, copies, k);
  }

  // ---------------------------------------------------------------------------
  // main (src/lprun.c:158-462)

  /**
   * What carrying out `plan` leaves behind, given the spooler's job ids and
   * the readable files: the status, and the submissions, sockets, pauses and
   * the rest of the system's state before (0) and after (1).
   */
  predicate Performed(plan: Plan, st: Status, ids: nat -> int, os: Os,
                      subs0: seq<Submission>, subs1: seq<Submission>,
                      conns0: seq<Conn>, conns1: seq<Conn>, sleeps0: seq<nat>, sleeps1: seq<nat>,
                      rest0: Effects, rest1: Effects)
  {
    match plan
    case Finish(status) => st == status && subs1 == subs0 && conns1 == conns0 && sleeps1 == sleeps0 && rest1 == rest0
    case PrintCups(job, copies, paced) =>
      && st == Exit(CupsCode(ids, |subs0|, copies))
      && subs1 == subs0 + Repeat(job, Submissions(ids, |subs0|, copies))
      && sleeps1 == sleeps0 + (if paced then Repeat(CopyDelay, Pauses(ids, |subs0|, copies)) else [])
      && conns1 == conns0 && rest1 == rest0
    case PrintRaw(ip, port, out, copies) =>
      && subs1 == subs0 && st.Exit?
      && RawPerformed(ip, port, out, copies, st.code, os, conns0, conns1, sleeps0, sleeps1, rest0, rest1)
  }

  /**
   * What send_file_raw() with valid arguments leaves behind: one of its codes;
   * earlier sockets, pauses and frames kept, only 200 ms pauses added, every
   * new socket closed, no file left open, and every new frame one of a
   * transfer of the file; on success one socket per copy, each carrying the
   * whole file to ip and the 16-bit port, and one pause per copy.
   */
  predicate RawPerformed(ip: string, port: int, out: string, copies: int, code: int, os: Os,
                         conns0: seq<Conn>, conns1: seq<Conn>, sleeps0: seq<nat>, sleeps1: seq<nat>,
                         rest0: Effects, rest1: Effects)
  {
    && code in {0, -2, -3, -4, -5, -6}
    && |conns1| >= |conns0| && conns1[..|conns0|] == conns0
    && (forall k :: |conns0| <= k < |conns1| ==> conns1[k].closed)
    && |sleeps1| >= |sleeps0| && sleeps1[..|sleeps0|] == sleeps0
    && (forall k :: |sleeps0| <= k < |sleeps1| ==> sleeps1[k] == CopyPause)
    && rest1.openFiles == rest0.openFiles
    && FramesSince(rest1.frames, rest0.frames, os.files, out)
    && CopiesEnded(os, ip, out, copies, code, |sleeps1| - |sleeps0|, rest0, rest1)
    && (code == 0 ==>
          |conns1| == |conns0| + Rounds(copies) && |sleeps1| == |sleeps0| + Rounds(copies) &&
          DeliveredRange(conns1, |conns0|, |conns1|, ip, port, os.files, out))
  }

  /**
   * On the raw path, an address inet_pton refuses ends main with -3 once a
   * copy is asked for and its socket is granted, and no copy goes out.
   */
  lemma RawInvalidAddressExit(plan: Plan, st: Status, ids: nat -> int, os: Os,
                              subs0: seq<Submission>, subs1: seq<Submission>,
                              conns0: seq<Conn>, conns1: seq<Conn>, sleeps0: seq<nat>, sleeps1: seq<nat>,
                              rest0: Effects, rest1: Effects)
    requires plan.PrintRaw? && plan.copies >= 1
    requires os.socketOk(rest0.socketCalls) && !os.addressOk(plan.ip)
    requires Performed(plan, st, ids, os, subs0, subs1, conns0, conns1, sleeps0, sleeps1, rest0, rest1)
    ensures st == Exit(-3) && sleeps1 == sleeps0 && subs1 == subs0
  {
    RawInvalidAddress(os, plan.ip, plan.out, plan.copies, st.code, |sleeps1| - |sleeps0|, rest0, rest1);
    assert sleeps1 == sleeps1[..|sleeps0|];
  }

  /** The raw path of main: send_file_raw() with the address and the prepared file, neither of them NULL. */
  method SendRaw(os: Os, ip: string, port: int, out: string, copies: int) returns (rc: int)
    modifies os`socketCalls, os`connectCalls, os`sendCalls, os`conns, os`openFiles, os`frames, os`sleeps
    ensures RawPerformed(ip, port, out, copies, rc, os, old(os.conns), os.conns, old(os.sleeps), os.sleeps,
                         old(os.Rest()), os.Rest())
  {
    rc := SendFileRaw(os, Some(ip), port, Some(out), copies);
  }

  /** Document preparation (src/lprun.c:326-358). */
  method PrepareFile(o: Options, env: Env) returns (r: Result<string, int>)
    requires !NoContent(o)
    ensures r == Prepare(o, env)
  {
    if o.text.Some? {
      var made := env.textToPs(o.text.value, o.color);
      if made.None? {
        return Err(4);
      }
      return Ok(made.value);
    } else if o.image.Some? {
      var made := env.imageToPs(o.image.value, o.color);
      if made.None? {
        return Err(5);
      }
      return Ok(made.value);
    }
    var isPdf := EndsWithCi(o.file, Some(".pdf"));
    if isPdf == 1 {
      var made := env.pdfToPs(o.file.value, o.color);
      if made.None? {
        return Err(6);
      }
      return Ok(made.value);
    }
    return Ok(o.file.value);
  }

  /** Printer discovery in main (src/lprun.c:289-313). */
  method FindDestination(o: Options, probes: Probes) returns (r: Result<Destination, int>)
    ensures r == Route(o.printer, o.ip, probes)
  {
    if o.printer.Some? {
      return Ok(Queue(o.printer.value));
    } else if o.ip.Some? {
      return Ok(Host(o.ip.value));
    }
    var found := DiscoverCupsPrinter(probes.lpstat);
    if found.Some? {
      return Ok(Queue(found.value));
    }
    var foundIp := DiscoverPrinterIp(probes.avahi, probes.ifaddrs, probes.nmap);
    if foundIp.Some? {
      return Ok(Host(foundIp.value));
    }
    return Err(3);
  }

  /** The printing step of main: the CUPS copy loop for a queue, send_file_raw() for an address. */
  method PrintTo(dest: Destination, out: string, o: Options, cups: Cups, os: Os) returns (st: Status)
    modifies cups`submitted, os`socketCalls, os`connectCalls, os`sendCalls, os`conns, os`openFiles, os`frames, os`sleeps
    ensures Performed(PrintPlan(dest, out, o), st, cups.jobIds, os,
                      old(cups.submitted), cups.submitted, old(os.conns), os.conns, old(os.sleeps), os.sleeps,
                      old(os.Rest()), os.Rest())
  {
    var rc;
    if dest.Queue? {
      var successful;
      rc, successful := SubmitCopies(cups, os, dest.name, out, o.copies, o.color);
      CopyLoopOutcome(cups.jobIds, |old(cups.submitted)|, o.copies, rc, successful);
    } else {
      rc := SendRaw(os, dest.ip, o.port, out, o.copies);
    }
    return Exit(rc);
  }

  /** The part of main after validation: discovery, preparation, then printing. */
  method Deliver(o: Options, env: Env, cups: Cups, os: Os) returns (st: Status)
    requires !NoContent(o)
    modifies cups`submitted, os`socketCalls, os`connectCalls, os`sendCalls, os`conns, os`openFiles, os`frames, os`sleeps
    ensures Performed(DeliveryPlan(o, env), st, cups.jobIds, os,
                      old(cups.submitted), cups.submitted, old(os.conns), os.conns, old(os.sleeps), os.sleeps,
                      old(os.Rest()), os.Rest())
    ensures DeliveryPlan(o, env).Finish? ==> unchanged(cups, os)
  {
    var dest := FindDestination(o, env.probes);
    if dest.Err? {
      return Exit(dest.error);
    }
    var prepared := PrepareFile(o, env);
    if prepared.Err? {
      return Exit(prepared.error);
    }
    st := PrintTo(dest.value, prepared.value, o, cups, os);
  }

  /**
   * main(): the subcommands recognised as the first argument, the parse loop,
   * the check that something is to be printed, then Deliver.
   */
  method Run(argv: seq<string>, env: Env, cups: Cups, os: Os) returns (st: Status)
    modifies cups`submitted, os`socketCalls, os`connectCalls, os`sendCalls, os`conns, os`openFiles, os`frames, os`sleeps
    ensures Performed(MainPlan(argv, env), st, cups.jobIds, os,
                      old(cups.submitted), cups.submitted, old(os.conns), os.conns, old(os.sleeps), os.sleeps,
                      old(os.Rest()), os.Rest())
    ensures MainPlan(argv, env).Finish? ==> unchanged(cups, os)
  {
    if |argv| < 2 {
      return Exit(1);
    }
    if argv[1] == "--help" {
      return Exit(0);
    }
    if argv[1] == "--list" {
      return Exit(0);
    }
    if argv[1] == "history" {
      return Exit(0);
    }
    if argv[1] == "scanner" {
      return ScannerStatus(argv, env);
    }
    var parsed := ParseOptions(argv);
    if parsed.Err? {
      return Exit(parsed.error);
    }
    var o := parsed.value;
    if o.text.None? && o.image.None? && o.file.None? {
      return Exit(2);
    }
    st := Deliver(o, env, cups, os);
  }
}
