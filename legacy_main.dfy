/**
 * The earlier front end (src/main.c): a parse loop without colour flags,
 * output directory or copy clamp, the same validation codes, and a CUPS copy
 * loop through cups_print_file() (src/print_cups.c) with a fixed title, no
 * options and no pause. Its converters take the input only, with no colour
 * mode. It shares the decision shapes of Lprun: LegacyMainPlan is its
 * reference definition and LegacyRun is proved to carry it out.
 */
module LegacyMain {
  import opened Wrappers
  import opened Text
  import opened Utils
  import opened Discovery
  import opened Platform
  import opened RawPrint
  import opened Spool
  import opened Lprun

  /** What the earlier main reads from its surroundings. */
  datatype LegacyEnv = LegacyEnv(
    probes: Probes,
    /** create_temp_ps_from_text(), convert_image_to_ps(), convert_pdf_to_ps() with one argument. */
    textToPs: string -> Option<string>,
    imageToPs: string -> Option<string>,
    pdfToPs: string -> Option<string>)

  const LegacyTitle := "myprinter-job"

  /** The options the earlier parse loop knows; all of them consume the following argument. */
  const LegacyValued: set<Token> := {PrinterOpt, IpOpt, PortOpt, TextOpt, ImageOpt, FileOpt, CopiesOpt}

  /** The effect of an option on the locals: as in the newer loop, but --copies takes atoi's value as it is. */
  function LegacySetValue(o: Options, t: Token, v: string): (r: Options)
    requires t in LegacyValued
    ensures t == CopiesOpt ==> r == o.(copies := Atoi(v))
    ensures t != CopiesOpt ==> r == SetValue(o, t, v)
  {
    if t == CopiesOpt then o.(copies := Atoi(v)) else SetValue(o, t, v)
  }

  /** Reference definition of the earlier parse loop from index i: anything but a known option with its value gives 1. */
  function LegacyParseFrom(argv: seq<string>, i: nat, o: Options): Result<Options, int>
    decreases |argv| - i
  {
    if i >= |argv| then Ok(o)
    else
      var t := Classify(argv[i]);
      if t in LegacyValued && i + 1 < |argv| then LegacyParseFrom(argv, i + 2, LegacySetValue(o, t, argv[i + 1]))
      else Err(1)
  }

  /** One round of the earlier parse loop on a known option and its value. */
  lemma LegacyStep(argv: seq<string>, i: nat, o: Options, t: Token)
    requires i + 1 < |argv| && t == Classify(argv[i]) && t in LegacyValued
    ensures LegacyParseFrom(argv, i, o) == LegacyParseFrom(argv, i + 2, LegacySetValue(o, t, argv[i + 1]))
  {
  }

  /** The seven options the earlier loop knows, one by one. */
  lemma LegacyValuedCases(t: Token)
    requires t in LegacyValued
    ensures t in {PrinterOpt, IpOpt, PortOpt, TextOpt, ImageOpt, FileOpt} || t == CopiesOpt
  {
  }

  /** The parse loop of the earlier main (src/main.c:63-72). */
  method LegacyParseOptions(argv: seq<string>) returns (r: Result<Options, int>)
    ensures r == LegacyParseFrom(argv, 1, Defaults)
  {
    var printer: Option<string>, ip: Option<string>, port := None, None, 9100;
    var text: Option<string>, image: Option<string>, file: Option<string> := None, None, None;
    var copies := 1;
    var i := 1;
    while i < |argv|
      invariant 1 <= i
      invariant LegacyParseFrom(argv, i, Options(printer, ip, port, text, image, file, copies, Auto, ""))
             == LegacyParseFrom(argv, 1, Defaults)
      decreases |argv| - i
    {
      var t := Classify(argv[i]);
      if !(t in LegacyValued && i + 1 < |argv|) {
        return Err(1);
      }
      ghost var before := Options(printer, ip, port, text, image, file, copies, Auto, "");
      i := i + 1;
      ghost var after := LegacySetValue(before, t, argv[i]);
      if t == PrinterOpt {
        printer := Some(argv[i]);
        assert after == before.(printer := Some(argv[i]));
      } else if t == IpOpt {
        ip := Some(argv[i]);
        assert after == before.(ip := Some(argv[i]));
      } else if t == PortOpt {
        port := Atoi(argv[i]);
        assert after == before.(port := Atoi(argv[i]));
      } else if t == TextOpt {
        text := Some(argv[i]);
        assert after == before.(text := Some(argv[i]));
      } else if t == ImageOpt {
        image := Some(argv[i]);
        assert after == before.(image := Some(argv[i]));
      } else if t == FileOpt {
        file := Some(argv[i]);
        assert after == before.(file := Some(argv[i]));
      } else {
        LegacyValuedCases(t);
        copies := Atoi(argv[i]);
        assert after == before.(copies := Atoi(argv[i]));
      }
      assert Options(printer, ip, port, text, image, file, copies, Auto, "") == after;
      LegacyStep(argv, i - 1, before, t);
      i := i + 1;
    }
    return Ok(Options(printer, ip, port, text, image, file, copies, Auto, ""));
  }

  /** The earlier parse succeeds exactly when every token is a known option followed by its value; otherwise it gives 1. */
  lemma {:induction false} LegacyAccepts(argv: seq<string>, i: nat, o: Options)
    ensures LegacyParseFrom(argv, i, o).Ok? <==> AllKnown(argv, i, LegacyValued, {})
    ensures LegacyParseFrom(argv, i, o).Err? ==> LegacyParseFrom(argv, i, o).error == 1
    decreases |argv| - i
  {
    if i < |argv| {
      var t := Classify(argv[i]);
      if t in LegacyValued && i + 1 < |argv| {
        LegacyAccepts(argv, i + 2, LegacySetValue(o, t, argv[i + 1]));
      }
    }
  }

  /** The earlier parse leaves the colour mode and the output directory as they were. */
  lemma {:induction false} LegacyKeepsColor(argv: seq<string>, i: nat, o: Options)
    requires LegacyParseFrom(argv, i, o).Ok?
    ensures LegacyParseFrom(argv, i, o).value.color == o.color
    ensures LegacyParseFrom(argv, i, o).value.outDir == o.outDir
    decreases |argv| - i
  {
    if i < |argv| {
      var t := Classify(argv[i]);
      LegacyKeepsColor(argv, i + 2, LegacySetValue(o, t, argv[i + 1]));
    }
  }

  /**
   * What the newer parse loop adds: on every command line the earlier one
   * accepts, the newer one gives the same locals, except that the copy count
   * is raised to at least 1.
   */
  lemma {:induction false} NewerParseExtends(argv: seq<string>, i: nat, legacy: Options, newer: Options)
    requires newer == legacy.(copies := ClampCopies(legacy.copies))
    requires LegacyParseFrom(argv, i, legacy).Ok?
    ensures var l := LegacyParseFrom(argv, i, legacy).value;
      ParseFrom(argv, i, newer) == Ok(l.(copies := ClampCopies(l.copies)))
    decreases |argv| - i
  {
    if i < |argv| {
      var t, v := Classify(argv[i]), argv[i + 1];
      var legacy', newer' := LegacySetValue(legacy, t, v), SetValue(newer, t, v);
      assert newer' == legacy'.(copies := ClampCopies(legacy'.copies));
      NewerParseExtends(argv, i + 2, legacy', newer');
    }
  }

  /** --color, --grayscale and --out-dir, and --list after the first place, are unknown to the earlier loop: reaching one gives 1. */
  lemma LegacyUnknownRejected(argv: seq<string>, word: string)
    requires word in {"--color", "--grayscale", "--out-dir", "--list", "--help", "history", "scanner"}
    requires Reaches(argv, 1, LegacyValued, word)
    ensures LegacyParseFrom(argv, 1, Defaults) == Err(1)
  {
    ClassifySpelling(NotAnOption);
    assert Classify("--color") == ColorOpt && Classify("--grayscale") == GrayscaleOpt && Classify("--out-dir") == OutDirOpt;
    NotKnownWhenReached(argv, 1, LegacyValued, {}, word);
    LegacyAccepts(argv, 1, Defaults);
  }

  /** The file to print (src/main.c:108-126): as in the newer main, with one-argument converters. */
  function LegacyPrepare(o: Options, env: LegacyEnv): Result<string, int>
    requires !NoContent(o)
  {
    if o.text.Some? then
      match env.textToPs(o.text.value) case Some(out) => Ok(out) case None => Err(4)
    else if o.image.Some? then
      match env.imageToPs(o.image.value) case Some(out) => Ok(out) case None => Err(5)
    else if EndsWithCiSpec(o.file, Some(".pdf")) then
      match env.pdfToPs(o.file.value) case Some(out) => Ok(out) case None => Err(6)
    else Ok(o.file.value)
  }

  /** The cupsPrintFile() call cups_print_file() makes for a copy: title "myprinter-job", no options. */
  function LegacyJob(printer: string, out: string): (sub: Submission)
    ensures sub.printer == printer && sub.file == out && sub.title == LegacyTitle && sub.options == []
  {
    Submission(printer, out, LegacyTitle, [])
  }

  /** What the earlier main does once the destination and the file are known. */
  function LegacyPrintPlan(dest: Destination, out: string, o: Options): Plan {
    match dest
    case Queue(name) => PrintCups(LegacyJob(name, out), o.copies, false)
    case Host(addr) => PrintRaw(addr, o.port, out, o.copies)
  }

  /** What the earlier main does with parsed options that name something to print. */
  function LegacyDeliveryPlan(o: Options, env: LegacyEnv): Plan
    requires !NoContent(o)
  {
    match Route(o.printer, o.ip, env.probes)
    case Err(code) => Finish(Exit(code))
    case Ok(dest) =>
      match LegacyPrepare(o, env)
      case Err(code) => Finish(Exit(code))
      case Ok(out) => LegacyPrintPlan(dest, out, o)
  }

  /** Reference definition of what the earlier main decides. */
  function LegacyMainPlan(argv: seq<string>, env: LegacyEnv): Plan {
    if |argv| < 2 then Finish(Exit(1))
    else if argv[1] == "--list" then Finish(Exit(0))
    else match LegacyParseFrom(argv, 1, Defaults)
      case Err(code) => Finish(Exit(code))
      case Ok(o) => if NoContent(o) then Finish(Exit(2)) else LegacyDeliveryPlan(o, env)
  }

  /** The exit codes the earlier main decides on by itself are 0 to 6. */
  lemma LegacyFinishCodes(argv: seq<string>, env: LegacyEnv)
    requires LegacyMainPlan(argv, env).Finish?
    ensures LegacyMainPlan(argv, env).status.Exit?
    ensures 0 <= LegacyMainPlan(argv, env).status.code <= 6
  {
    if |argv| >= 2 && argv[1] != "--list" {
      LegacyAccepts(argv, 1, Defaults);
    }
  }

  /** Without text, image or file the earlier main gives 2 before any discovery. */
  lemma LegacyNothingToPrint(argv: seq<string>, env: LegacyEnv)
    requires |argv| >= 2 && argv[1] != "--list"
    requires LegacyParseFrom(argv, 1, Defaults).Ok? && NoContent(LegacyParseFrom(argv, 1, Defaults).value)
    ensures LegacyMainPlan(argv, env) == Finish(Exit(2))
  {
  }

  /** A copy count of 0 or less reaches the CUPS path unchanged, which then submits nothing and succeeds. */
  lemma NoCopiesSubmitsNothing(plan: Plan, st: Status, ids: nat -> int, os: Os,
                               subs0: seq<Submission>, subs1: seq<Submission>,
                               conns0: seq<Conn>, conns1: seq<Conn>, sleeps0: seq<nat>, sleeps1: seq<nat>,
                               rest0: Effects, rest1: Effects)
    requires plan.PrintCups? && plan.copies <= 0
    requires Performed(plan, st, ids, os, subs0, subs1, conns0, conns1, sleeps0, sleeps1, rest0, rest1)
    ensures st == Exit(0) && subs1 == subs0 && sleeps1 == sleeps0 && conns1 == conns0 && rest1 == rest0
  {
    assert Submissions(ids, |subs0|, plan.copies) == 0;
    assert Repeat(plan.job, 0) == [];
  }

  /** The earlier parse keeps a --copies value of 0 or below, where the newer one raises it to 1. */
  lemma LegacyCopiesUnclamped(o: Options, v: string)
    requires Atoi(v) < 1
    ensures LegacySetValue(o, CopiesOpt, v).copies == Atoi(v) < 1
    ensures SetValue(o, CopiesOpt, v).copies == 1
  {
  }

  // ---------------------------------------------------------------------------
  // The earlier main, step by step

  /** cups_print_file() (src/print_cups.c:8-12): -1 without a call for a NULL argument, otherwise cupsPrintFile()'s job id. */
  method CupsPrintFile(cups: Cups, printer: Option<string>, filename: Option<string>) returns (job: int)
    modifies cups`submitted
    ensures printer.None? || filename.None? ==> job == -1 && cups.submitted == old(cups.submitted)
    ensures printer.Some? && filename.Some? ==>
      && job == cups.jobIds(|old(cups.submitted)|)
      && cups.submitted == old(cups.submitted) + [LegacyJob(printer.value, filename.value)]
  {
    if printer.None? || filename.None? {
      return -1;
    }
    job := cups.PrintFile(printer.value, filename.value, LegacyTitle, []);
  }

  /** The earlier copy loop (src/main.c:132-136): stop with 20 at the first job id not above 0, no pause. */
  method LegacySubmit(cups: Cups, printer: string, out: string, copies: int) returns (rc: int)
    modifies cups`submitted
    ensures rc == CupsCode(cups.jobIds, |old(cups.submitted)|, copies)
    ensures cups.submitted == old(cups.submitted) + Repeat(LegacyJob(printer, out), Submissions(cups.jobIds, |old(cups.submitted)|, copies))
  {
    ghost var start := |cups.submitted|;
    ghost var sub := LegacyJob(printer, out);
    rc := 0;
    var i := 0;
    while i < copies
      invariant 0 <= i && (copies >= 0 ==> i <= copies) && (copies < 0 ==> i == 0)
      invariant forall c :: start <= c < start + i ==> cups.jobIds(c) > 0
      invariant cups.submitted == old(cups.submitted) + Repeat(sub, i)
      decreases copies - i
    {
      var job := CupsPrintFile(cups, Some(printer), Some(out));
      RepeatMore(sub, i);
      if job <= 0 {
        rc := 20;
        break;
      }
      i := i + 1;
    }
    CopyLoopOutcome(cups.jobIds, start, copies, rc, i);
  }

  /** Document preparation of the earlier main. */
  method LegacyPrepareFile(o: Options, env: LegacyEnv) returns (r: Result<string, int>)
    requires !NoContent(o)
    ensures r == LegacyPrepare(o, env)
  {
    if o.text.Some? {
      var made := env.textToPs(o.text.value);
      if made.None? {
        return Err(4);
      }
      return Ok(made.value);
    } else if o.image.Some? {
      var made := env.imageToPs(o.image.value);
      if made.None? {
        return Err(5);
      }
      return Ok(made.value);
    }
    var isPdf := EndsWithCi(o.file, Some(".pdf"));
    if isPdf == 1 {
      var made := env.pdfToPs(o.file.value);
      if made.None? {
        return Err(6);
      }
      return Ok(made.value);
    }
    return Ok(o.file.value);
  }

  /** The printing step of the earlier main: its copy loop for a queue, send_file_raw() for an address. */
  method LegacyPrintTo(dest: Destination, out: string, o: Options, cups: Cups, os: Os) returns (st: Status)
    modifies cups`submitted, os`socketCalls, os`connectCalls, os`sendCalls, os`conns, os`openFiles, os`frames, os`sleeps
    ensures Performed(LegacyPrintPlan(dest, out, o), st, cups.jobIds, os,
                      old(cups.submitted), cups.submitted, old(os.conns), os.conns, old(os.sleeps), os.sleeps,
                      old(os.Rest()), os.Rest())
  {
    var rc;
    if dest.Queue? {
      rc := LegacySubmit(cups, dest.name, out, o.copies);
    } else {
      rc := SendRaw(os, dest.ip, o.port, out, o.copies);
    }
    return Exit(rc);
  }

  /** The earlier main after validation: discovery, preparation, then printing. */
  method LegacyDeliver(o: Options, env: LegacyEnv, cups: Cups, os: Os) returns (st: Status)
    requires !NoContent(o)
    modifies cups`submitted, os`socketCalls, os`connectCalls, os`sendCalls, os`conns, os`openFiles, os`frames, os`sleeps
    ensures Performed(LegacyDeliveryPlan(o, env), st, cups.jobIds, os,
                      old(cups.submitted), cups.submitted, old(os.conns), os.conns, old(os.sleeps), os.sleeps,
                      old(os.Rest()), os.Rest())
    ensures LegacyDeliveryPlan(o, env).Finish? ==> unchanged(cups, os)
  {
    var dest := FindDestination(o, env.probes);
    if dest.Err? {
      return Exit(dest.error);
    }
    var prepared := LegacyPrepareFile(o, env);
    if prepared.Err? {
      return Exit(prepared.error);
    }
    st := LegacyPrintTo(dest.value, prepared.value, o, cups, os);
  }

  /** The earlier main(): --list as the first argument, the parse loop, the content check, then LegacyDeliver. */
  method LegacyRun(argv: seq<string>, env: LegacyEnv, cups: Cups, os: Os) returns (st: Status)
    modifies cups`submitted, os`socketCalls, os`connectCalls, os`sendCalls, os`conns, os`openFiles, os`frames, os`sleeps
    ensures Performed(LegacyMainPlan(argv, env), st, cups.jobIds, os,
                      old(cups.submitted), cups.submitted, old(os.conns), os.conns, old(os.sleeps), os.sleeps,
                      old(os.Rest()), os.Rest())
    ensures LegacyMainPlan(argv, env).Finish? ==> unchanged(cups, os)
  {
    if |argv| < 2 {
      return Exit(1);
    }
    if argv[1] == "--list" {
      return Exit(0);
    }
    var parsed := LegacyParseOptions(argv);
    if parsed.Err? {
      return Exit(parsed.error);
    }
    var o := parsed.value;
    if o.text.None? && o.image.None? && o.file.None? {
      return Exit(2);
    }
    st := LegacyDeliver(o, env, cups, os);
  }
}
