/**
 * Printer discovery (src/disc.c). Each external tool's output (lpstat -v,
 * avahi-browse --parsable, nmap -oG -) is given as the sequence of lines
 * fgets() reads from it, or None when popen() failed; the scans are first-match
 * searches over those lines.
 */
module Discovery {
  import opened Wrappers
  import opened Text
  import opened Utils

  // ---------------------------------------------------------------------------
  // First-match scanning

  /** The value of the first line `f` accepts; the line loops that return early. */
  function FirstOf<T>(lines: seq<string>, f: string -> Option<T>): (r: Option<T>)
    ensures r.None? <==> forall i :: 0 <= i < |lines| ==> f(lines[i]).None?
    decreases |lines|
  {
    if lines == [] then None
    else if f(lines[0]).Some? then f(lines[0])
    else FirstOf(lines[1..], f)
  }

  /** The first accepted line decides: lines before it are skipped, lines after it are not looked at. */
  lemma {:induction false} FirstOfAt<T>(lines: seq<string>, f: string -> Option<T>, i: nat)
    requires i < |lines| && f(lines[i]).Some?
    requires forall j :: 0 <= j < i ==> f(lines[j]).None?
    ensures FirstOf(lines, f) == f(lines[i])
    decreases i
  {
    if i > 0 {
      FirstOfAt(lines[1..], f, i - 1);
    }
  }

  /** Lines after an accepted line never change the outcome. */
  lemma {:induction false} FirstOfPrefix<T>(lines: seq<string>, more: seq<string>, f: string -> Option<T>)
    requires FirstOf(lines, f).Some?
    ensures FirstOf(lines + more, f) == FirstOf(lines, f)
    decreases |lines|
  {
    if f(lines[0]).None? {
      assert (lines + more)[1..] == lines[1..] + more;
      FirstOfPrefix(lines[1..], more, f);
    }
  }

  // ---------------------------------------------------------------------------
  // discover_cups_printer

  const DeviceFor := "device for "

  /**
   * One lpstat -v line: the text between the first "device for " and the
   * first ':' after it, with trailing white space cut as trim() does on the
   * strdup'd copy (TrimOfCopy); None when either is missing.
   */
  function CupsNameOfLine(line: string): (r: Option<string>)
    ensures !Contains(line, DeviceFor) ==> r.None?
    ensures r.Some? ==> ':' !in r.value
  {
    match Find(line, DeviceFor)
    case None => None
    case Some(i) =>
      var p := line[i + |DeviceFor|..];
      match IndexOf(p, ':')
      case None => None
      case Some(c) =>
        assert forall x :: x in TrimEnd(p[..c]) ==> x in p[..c];
        Some(TrimEnd(p[..c]))
  }

  /** A line "device for NAME:URI" yields NAME without its trailing white space. */
  lemma CupsLineFormat(name: string, uri: string)
    requires ':' !in name
    ensures CupsNameOfLine(DeviceFor + name + ":" + uri) == Some(TrimEnd(name))
  {
    var line := DeviceFor + name + ":" + uri;
    assert OccursAt(line, DeviceFor, 0);
    var p := line[|DeviceFor|..];
    assert p == name + ":" + uri;
    assert p[..|name|] == name;
    IndexOfIs(p, ':', |name|);
  }

  /** A line whose first "device for " has no ':' after it is skipped. */
  lemma CupsLineNoColon(pre: string, rest: string)
    requires ':' !in rest
    requires forall j :: 0 <= j < |pre| ==> !OccursAt(pre + DeviceFor + rest, DeviceFor, j)
    ensures CupsNameOfLine(pre + DeviceFor + rest).None?
  {
    var line := pre + DeviceFor + rest;
    assert OccursAt(line, DeviceFor, |pre|);
    assert Find(line, DeviceFor) == Some(|pre|);
    assert line[|pre| + |DeviceFor|..] == rest;
  }

  /**
   * discover_cups_printer(): `lpstat` holds the lines of `lpstat -v`, or None
   * when popen() failed. The name comes from the first line that yields one.
   */
  function DiscoverCupsPrinter(lpstat: Option<seq<string>>): (r: Option<string>)
    ensures lpstat.None? ==> r.None?
    ensures r.None? <==> lpstat.None? || forall i :: 0 <= i < |lpstat.value| ==> CupsNameOfLine(lpstat.value[i]).None?
    ensures r.Some? ==> ':' !in r.value
  {
    match lpstat
    case None => None
    case Some(lines) =>
      var r := FirstOf(lines, CupsNameOfLine);
      assert r.Some? ==> exists i :: 0 <= i < |lines| && CupsNameOfLine(lines[i]) == r by {
        if r.Some? {
          FirstOfWitness(lines, CupsNameOfLine);
        }
      }
      r
  }

  /** The value FirstOf returns is what `f` gives for one of the lines. */
  lemma {:induction false} FirstOfWitness<T>(lines: seq<string>, f: string -> Option<T>)
    requires FirstOf(lines, f).Some?
    ensures exists i :: 0 <= i < |lines| && f(lines[i]) == FirstOf(lines, f)
    decreases |lines|
  {
    if f(lines[0]).None? {
      FirstOfWitness(lines[1..], f);
      var i :| 0 <= i < |lines[1..]| && f(lines[1..][i]) == FirstOf(lines[1..], f);
      assert f(lines[i + 1]) == FirstOf(lines, f);
    }
  }

  // ---------------------------------------------------------------------------
  // discover_printer_ip: avahi-browse

  /**
   * One avahi-browse --parsable line split on ';' the way the strsep() loop
   * does (empty tokens kept, so a leading ';' makes an empty first token): the
   * eighth token when there is one and it is not empty, taken verbatim.
   */
  function AvahiAddress(line: string): (r: Option<string>)
    ensures r.Some? ==> r.value != [] && ';' !in r.value
  {
    var t := Split(line, ';');
    if |t| >= 8 && t[7] != "" then Some(t[7]) else None
  }

  /** A record written as ';'-joined fields yields its eighth field, whatever the fields after it. */
  lemma AvahiRecord(fields: seq<string>)
    requires |fields| >= 8 && fields[7] != ""
    requires forall i :: 0 <= i < |fields| ==> ';' !in fields[i]
    ensures AvahiAddress(Join(fields, ';')) == Some(fields[7])
  {
    SplitJoin(fields, ';');
  }

  /** A record with fewer than eight fields, or an empty eighth field, is skipped. */
  lemma AvahiSkipped(fields: seq<string>)
    requires |fields| >= 1 && (|fields| < 8 || fields[7] == "")
    requires forall i :: 0 <= i < |fields| ==> ';' !in fields[i]
    ensures AvahiAddress(Join(fields, ';')).None?
  {
    SplitJoin(fields, ';');
  }

  // ---------------------------------------------------------------------------
  // discover_printer_ip: nmap

  /** The string with its leading ' ' characters skipped (the `while (*p == ' ')` loop). */
  function DropBlanks(s: string): (r: string)
    ensures |r| <= |s| && r == s[|s| - |r|..]
    ensures r != [] ==> r[0] != ' '
    decreases |s|
  {
    if s != [] && s[0] == ' ' then DropBlanks(s[1..]) else s
  }

  /** Skipping blanks first does not change what skipping all white space leaves. */
  lemma {:induction false} DropBlanksSpaces(s: string)
    ensures DropSpaces(DropBlanks(s)) == DropSpaces(s)
    decreases |s|
  {
    if s != [] && s[0] == ' ' {
      DropBlanksSpaces(s[1..]);
    }
  }

  /** The longest prefix of `s` holding no white space. */
  function WordRun(s: string): (r: string)
    ensures StartsWith(s, r) && forall i :: 0 <= i < |r| ==> !IsSpace(r[i])
    ensures |r| < |s| ==> IsSpace(s[|r|])
    decreases |s|
  {
    if s != [] && !IsSpace(s[0]) then
      var rest := WordRun(s[1..]);
      assert s == [s[0]] + s[1..];
      [s[0]] + rest
    else []
  }

  /**
   * sscanf(p, "%63s", ipbuf) into a zeroed buffer: white space skipped, then
   * at most 63 non-space characters; the empty string when nothing follows.
   */
  function ScanWord(s: string): (r: string)
    ensures |r| <= 63 && forall i :: 0 <= i < |r| ==> !IsSpace(r[i])
  {
    Truncate(WordRun(DropSpaces(s)), 63)
  }

  /** The ports the nmap scan asks for, as they appear open in greppable output. */
  predicate OpenPrinterPort(line: string) {
    Contains(line, "9100/open") || Contains(line, "8611/open") || Contains(line, "631/open")
  }

  /**
   * One nmap greppable line: a "Host:" line that mentions "Ports:" and an open
   * printer port yields the first word after "Host:"; other lines are skipped.
   */
  function NmapHostOfLine(line: string): (r: Option<string>)
    ensures r.Some? <==> StartsWith(line, "Host:") && Contains(line, "Ports:") && OpenPrinterPort(line)
    ensures r.Some? ==> |r.value| <= 63 && forall i :: 0 <= i < |r.value| ==> !IsSpace(r.value[i])
  {
    if !StartsWith(line, "Host:") then None
    else
      var ip := ScanWord(DropBlanks(line[5..]));
      if Contains(line, "Ports:") && OpenPrinterPort(line) then Some(ip) else None
  }

  /** A host line "Host:" + white space + IP + white space + ... yields the IP. */
  lemma NmapHostFormat(line: string, gap: string, ip: string, rest: string)
    requires line == "Host:" + gap + ip + rest
    requires forall i :: 0 <= i < |gap| ==> IsSpace(gap[i])
    requires 1 <= |ip| <= 63 && forall i :: 0 <= i < |ip| ==> !IsSpace(ip[i])
    requires rest == [] || IsSpace(rest[0])
    requires Contains(line, "Ports:") && OpenPrinterPort(line)
    ensures NmapHostOfLine(line) == Some(ip)
  {
    assert StartsWith(line, "Host:");
    assert line[5..] == gap + (ip + rest);
    ScanAfterHost(gap, ip, rest);
  }

  lemma ScanAfterHost(gap: string, ip: string, rest: string)
    requires forall i :: 0 <= i < |gap| ==> IsSpace(gap[i])
    requires 1 <= |ip| <= 63 && forall i :: 0 <= i < |ip| ==> !IsSpace(ip[i])
    requires rest == [] || IsSpace(rest[0])
    ensures ScanWord(DropBlanks(gap + (ip + rest))) == ip
  {
    DropBlanksSpaces(gap + (ip + rest));
    DropSpacesPrefix(gap, ip + rest);
    WordRunPrefix(ip, rest);
  }

  lemma {:induction false} DropSpacesPrefix(gap: string, s: string)
    requires forall i :: 0 <= i < |gap| ==> IsSpace(gap[i])
    requires s != [] && !IsSpace(s[0])
    ensures DropSpaces(gap + s) == s
    decreases |gap|
  {
    if gap != [] {
      assert (gap + s)[1..] == gap[1..] + s;
      DropSpacesPrefix(gap[1..], s);
    } else {
      assert gap + s == s;
    }
  }

  lemma {:induction false} WordRunPrefix(w: string, rest: string)
    requires forall i :: 0 <= i < |w| ==> !IsSpace(w[i])
    requires rest == [] || IsSpace(rest[0])
    ensures WordRun(w + rest) == w
    decreases |w|
  {
    if w != [] {
      assert (w + rest)[1..] == w[1..] + rest;
      WordRunPrefix(w[1..], rest);
    } else {
      assert w + rest == rest;
    }
  }

  /** The nmap command for a subnet, as snprintf() writes it into its 512-byte buffer. */
  function NmapCommand(subnet: string): (r: string)
    ensures |r| <= 511
    ensures StartsWith(r, "nmap -p 9100,8611,631 --open -oG - ")
  {
    Truncate("nmap -p 9100,8611,631 --open -oG - " + subnet + " 2>/dev/null", 511)
  }

  /**
   * discover_printer_ip(): the avahi-browse lines (None when popen() failed)
   * are scanned first; only when they give no address is the local subnet
   * looked up, and only when there is one is nmap run over it. `nmap` gives the
   * output lines of a command, or None when popen() failed.
   */
  function DiscoverPrinterIp(avahi: Option<seq<string>>, ifaddrs: Option<seq<IfAddr>>,
                             nmap: string -> Option<seq<string>>): (r: Option<string>)
    ensures avahi.Some? && FirstOf(avahi.value, AvahiAddress).Some? ==> r == FirstOf(avahi.value, AvahiAddress)
    ensures (avahi.None? || FirstOf(avahi.value, AvahiAddress).None?) ==>
      r == (match LocalSubnetCidr(ifaddrs)
            case None => None
            case Some(subnet) =>
              match nmap(NmapCommand(subnet))
              case None => None
              case Some(lines) => FirstOf(lines, NmapHostOfLine))
  {
    var fromAvahi := if avahi.Some? then FirstOf(avahi.value, AvahiAddress) else None;
    if fromAvahi.Some? then fromAvahi
    else
      match LocalSubnetCidr(ifaddrs)
      case None => None
      case Some(subnet) =>
        match nmap(NmapCommand(subnet))
        case None => None
        case Some(lines) => FirstOf(lines, NmapHostOfLine)
  }

  /** An address from avahi-browse ends the search: the interfaces and nmap play no part. */
  lemma AvahiShortCircuits(avahi: seq<string>, ifs1: Option<seq<IfAddr>>, ifs2: Option<seq<IfAddr>>,
                           nmap1: string -> Option<seq<string>>, nmap2: string -> Option<seq<string>>)
    requires FirstOf(avahi, AvahiAddress).Some?
    ensures DiscoverPrinterIp(Some(avahi), ifs1, nmap1) == DiscoverPrinterIp(Some(avahi), ifs2, nmap2)
    ensures DiscoverPrinterIp(Some(avahi), ifs1, nmap1).value != ""
  {
    FirstOfWitness(avahi, AvahiAddress);
  }

  /** Without a local subnet the fallback gives up without running nmap. */
  lemma NoSubnetNoScan(avahi: Option<seq<string>>, ifaddrs: Option<seq<IfAddr>>,
                       nmap1: string -> Option<seq<string>>, nmap2: string -> Option<seq<string>>)
    requires avahi.None? || FirstOf(avahi.value, AvahiAddress).None?
    requires LocalSubnetCidr(ifaddrs).None?
    ensures DiscoverPrinterIp(avahi, ifaddrs, nmap1).None?
    ensures DiscoverPrinterIp(avahi, ifaddrs, nmap1) == DiscoverPrinterIp(avahi, ifaddrs, nmap2)
  {
  }

  /** An address found by the nmap fallback is a single word of at most 63 characters. */
  lemma NmapAddressShape(avahi: Option<seq<string>>, ifaddrs: Option<seq<IfAddr>>,
                         nmap: string -> Option<seq<string>>)
    requires avahi.None? || FirstOf(avahi.value, AvahiAddress).None?
    requires DiscoverPrinterIp(avahi, ifaddrs, nmap).Some?
    ensures var ip := DiscoverPrinterIp(avahi, ifaddrs, nmap).value;
      |ip| <= 63 && forall i :: 0 <= i < |ip| ==> !IsSpace(ip[i])
  {
    var lines := nmap(NmapCommand(LocalSubnetCidr(ifaddrs).value)).value;
    FirstOfWitness(lines, NmapHostOfLine);
  }
}
