/**
 * The string helpers of src/utils.c that the discovery and dispatch code use:
 * the local /24 subnet of the first usable IPv4 interface, a case-insensitive
 * suffix test, trim() on a NUL-terminated buffer, and the shell-argument escape.
 */
module Utils {
  import opened Wrappers
  import opened Text

  // ---------------------------------------------------------------------------
  // get_local_subnet_cidr

  type Octet = x: int | 0 <= x < 256

  /** An interface address as getifaddrs() reports it: IPv4 with its four octets, or another family. */
  datatype SockAddr = Inet(a: Octet, b: Octet, c: Octet, d: Octet) | OtherFamily(family: int)

  /** One entry of the getifaddrs() list; `addr` is None when the entry has no address. */
  datatype IfAddr = IfAddr(name: string, addr: Option<SockAddr>)

  /** INADDR_LOOPBACK */
  const Loopback: SockAddr := Inet(127, 0, 0, 1)

  /** The entry has an IPv4 address other than 127.0.0.1. */
  predicate Qualifies(ifa: IfAddr) {
    ifa.addr.Some? && ifa.addr.value.Inet? && ifa.addr.value != Loopback
  }

  /** The index of the first qualifying entry at or after `from`. */
  function FirstQualifying(ifs: seq<IfAddr>, from: nat): (r: Option<nat>)
    requires from <= |ifs|
    ensures r.Some? ==> from <= r.value < |ifs| && Qualifies(ifs[r.value])
    ensures forall j :: from <= j < |ifs| && (r.None? || j < r.value) ==> !Qualifies(ifs[j])
    decreases |ifs| - from
  {
    if from == |ifs| then None
    else if Qualifies(ifs[from]) then Some(from)
    else FirstQualifying(ifs, from + 1)
  }

  /** "a.b.c.0/24" for an IPv4 address a.b.c.d, octets printed with %u. */
  function SubnetOf(sa: SockAddr): string
    requires sa.Inet?
  {
    Digits(sa.a) + "." + Digits(sa.b) + "." + Digits(sa.c) + ".0/24"
  }

  /**
   * get_local_subnet_cidr(): `ifaddrs` is the interface list, or None when
   * getifaddrs() failed; the result is None for NULL.
   */
  function LocalSubnetCidr(ifaddrs: Option<seq<IfAddr>>): (r: Option<string>)
    ensures r.Some? <==> ifaddrs.Some? && exists k :: 0 <= k < |ifaddrs.value| && Qualifies(ifaddrs.value[k])
    ensures r.Some? ==> exists k ::
      && 0 <= k < |ifaddrs.value| && Qualifies(ifaddrs.value[k])
      && (forall j :: 0 <= j < k ==> !Qualifies(ifaddrs.value[j]))
      && r.value == SubnetOf(ifaddrs.value[k].addr.value)
  {
    match ifaddrs
    case None => None
    case Some(ifs) =>
      match FirstQualifying(ifs, 0)
      case None => None
      case Some(k) => Some(SubnetOf(ifs[k].addr.value))
  }

  /**
   * The subnet text has four dot-separated fields: the address's first three
   * octets in decimal, which read back as those octets, and "0/24".
   */
  lemma SubnetFields(sa: SockAddr)
    requires sa.Inet?
    ensures Split(SubnetOf(sa), '.') == [Digits(sa.a), Digits(sa.b), Digits(sa.c), "0/24"]
    ensures DecValue(Digits(sa.a)) == sa.a && DecValue(Digits(sa.b)) == sa.b && DecValue(Digits(sa.c)) == sa.c
  {
    var parts := [Digits(sa.a), Digits(sa.b), Digits(sa.c), "0/24"];
    forall i | 0 <= i < 3 ensures '.' !in parts[i] {
      assert forall j :: 0 <= j < |parts[i]| ==> parts[i][j] != '.';
    }
    assert '.' !in parts[3];
    assert Join(parts[3..], '.') == "0/24";
    assert Join(parts[2..], '.') == Digits(sa.c) + "." + "0/24";
    assert Join(parts[1..], '.') == Digits(sa.b) + "." + Digits(sa.c) + "." + "0/24";
    assert ".0/24" == "." + "0/24";
    assert Join(parts, '.') == SubnetOf(sa);
    SplitJoin(parts, '.');
    DecValueDigits(sa.a);
    DecValueDigits(sa.b);
    DecValueDigits(sa.c);
  }

  // ---------------------------------------------------------------------------
  // ends_with_ci

  /** The string with every character passed through tolower(). */
  function Lowered(s: string): (r: string)
    ensures |r| == |s|
    ensures forall i :: 0 <= i < |s| ==> r[i] == ToLower(s[i])
  {
    seq(|s|, i requires 0 <= i < |s| => ToLower(s[i]))
  }

  /**
   * Reference definition of ends_with_ci(): both strings present and the tail
   * of `s` as long as `suffix` equals `suffix` once both are lower-cased.
   */
  predicate EndsWithCiSpec(s: Option<string>, suffix: Option<string>) {
    && s.Some? && suffix.Some?
    && |suffix.value| <= |s.value|
    && Lowered(s.value[|s.value| - |suffix.value|..]) == Lowered(suffix.value)
  }

  /** ends_with_ci(): the index loop comparing the last |suffix| characters, 1 for yes and 0 for no. */
  method EndsWithCi(s: Option<string>, suffix: Option<string>) returns (r: int)
    ensures r == if EndsWithCiSpec(s, suffix) then 1 else 0
  {
    if s.None? || suffix.None? {
      return 0;
    }
    var sl, su := |s.value|, |suffix.value|;
    if su > sl {
      return 0;
    }
    var i := 0;
    while i < su
      invariant 0 <= i <= su
      invariant forall j :: 0 <= j < i ==> ToLower(s.value[sl - su + j]) == ToLower(suffix.value[j])
    {
      if ToLower(s.value[sl - su + i]) != ToLower(suffix.value[i]) {
        assert Lowered(s.value[sl - su..])[i] != Lowered(suffix.value)[i];
        return 0;
      }
      i := i + 1;
    }
    assert Lowered(s.value[sl - su..]) == Lowered(suffix.value);
    return 1;
  }

  /** An empty suffix ends every string; a longer suffix ends none. */
  lemma EndsWithCiBounds(s: string, suffix: string)
    ensures EndsWithCiSpec(Some(s), Some(""))
    ensures |suffix| > |s| ==> !EndsWithCiSpec(Some(s), Some(suffix))
  {
    assert Lowered(s[|s|..]) == [];
  }

  /** Appending a suffix that differs only in ASCII case is recognised. */
  lemma EndsWithCiAppended(base: string, tail: string, suffix: string)
    requires Lowered(tail) == Lowered(suffix)
    ensures EndsWithCiSpec(Some(base + tail), Some(suffix))
  {
    var s := base + tail;
    assert |Lowered(tail)| == |tail|;
    assert s[|s| - |suffix|..] == tail;
  }

  // ---------------------------------------------------------------------------
  // trim

  const Nul: char := '\0'

  /** strlen(): the index of the first NUL of a buffer that holds one. */
  function CLength(b: seq<char>): (n: nat)
    requires Nul in b
    ensures n < |b| && b[n] == Nul && Nul !in b[..n]
  {
    IndexOf(b, Nul).value
  }

  /** The C string a NUL-terminated buffer holds. */
  function CString(b: seq<char>): (s: string)
    requires Nul in b
    ensures Nul !in s
  {
    b[..CLength(b)]
  }

  /** The last index of `s` whose character is not white space. */
  function LastNonSpace(s: string): (r: Option<nat>)
    ensures r.Some? ==> r.value < |s| && !IsSpace(s[r.value])
    ensures forall j :: 0 <= j < |s| && (r.None? || r.value < j) ==> IsSpace(s[j])
    decreases |s|
  {
    if s == [] then None
    else if !IsSpace(s[|s| - 1]) then Some(|s| - 1)
    else LastNonSpace(s[..|s| - 1])
  }

  /**
   * The C string trim() leaves behind: the trailing white space is cut off,
   * the leading white space stays, and a string made only of white space
   * (the empty string included) is left as it is.
   */
  function TrimEnd(s: string): (r: string)
    ensures StartsWith(s, r)
    ensures (forall j :: 0 <= j < |s| ==> IsSpace(s[j])) ==> r == s
    ensures (exists j :: 0 <= j < |s| && !IsSpace(s[j])) ==>
      r != [] && !IsSpace(r[|r| - 1]) && forall j :: |r| <= j < |s| ==> IsSpace(s[j])
  {
    match LastNonSpace(s)
    case None => s
    case Some(k) => s[..k + 1]
  }

  /** The buffer after trim(): one NUL written just past the last non-space character, if there is one. */
  function TrimmedBuffer(b: seq<char>): (r: seq<char>)
    requires Nul in b
    ensures |r| == |b| && Nul in r
  {
    match LastNonSpace(CString(b))
    case None => b
    case Some(k) =>
      var r := b[k + 1 := Nul];
      assert r[k + 1] == Nul;
      r
  }

  lemma CLengthFrom(b: seq<char>, p: nat)
    requires Nul in b && p <= CLength(b)
    ensures Nul in b[p..] && CLength(b[p..]) == CLength(b) - p
  {
    var n := CLength(b);
    assert b[p..][n - p] == Nul;
    assert b[p..][..n - p] == b[..n][p..];
    assert forall x :: x in b[..n][p..] ==> x in b[..n];
    IndexOfIs(b[p..], Nul, n - p);
  }

  /**
   * trim(): skip the leading white space; if nothing else is left, return;
   * otherwise walk back from the last character over white space and write a
   * NUL after the first non-space character found.
   */
  method Trim(s: array<char>)
    requires Nul in s[..]
    modifies s
    ensures s[..] == TrimmedBuffer(old(s[..]))
  {
    var p := SkipSpaces(s);
    if s[p] == Nul {
      AllSpaceUntouched(s[..]);
      return;
    }
    var end := BackOverSpaces(s, p);
    CutAfter(s[..], end);
    s[end + 1] := Nul;
  }

  /** The first loop of trim(): the index of the first character that is not white space. */
  method SkipSpaces(s: array<char>) returns (p: nat)
    requires Nul in s[..]
    ensures p <= CLength(s[..]) && !IsSpace(s[p])
    ensures forall j :: 0 <= j < p ==> IsSpace(s[j])
  {
    ghost var n := CLength(s[..]);
    p := 0;
    while IsSpace(s[p])
      invariant 0 <= p <= n
      invariant forall j :: 0 <= j < p ==> IsSpace(s[j])
      decreases n - p
    {
      p := p + 1;
    }
  }

  /** The second loop of trim(): from the end of the string back to the last character that is not white space. */
  method BackOverSpaces(s: array<char>, p: nat) returns (end: nat)
    requires Nul in s[..] && p < CLength(s[..]) && !IsSpace(s[p])
    ensures p <= end < CLength(s[..]) && !IsSpace(s[end])
    ensures forall j :: end < j < CLength(s[..]) ==> IsSpace(s[j])
  {
    ghost var b := s[..];
    ghost var n := CLength(b);
    CLengthFrom(b, p);
    end := p + CLength(s[p..]) - 1;
    while end > p && IsSpace(s[end])
      invariant p <= end < n
      invariant forall j :: end < j < n ==> IsSpace(b[j])
    {
      end := end - 1;
    }
  }

  lemma AllSpaceUntouched(b: seq<char>)
    requires Nul in b
    requires forall j :: 0 <= j < CLength(b) ==> IsSpace(b[j])
    ensures TrimmedBuffer(b) == b
  {
    assert forall j :: 0 <= j < CLength(b) ==> CString(b)[j] == b[j];
  }

  lemma CutAfter(b: seq<char>, k: nat)
    requires Nul in b && k < CLength(b) && !IsSpace(b[k])
    requires forall j :: k < j < CLength(b) ==> IsSpace(b[j])
    ensures TrimmedBuffer(b) == b[k + 1 := Nul]
  {
    assert forall j :: 0 <= j < CLength(b) ==> CString(b)[j] == b[j];
    assert LastNonSpace(CString(b)) == Some(k);
  }

  /** trim() changes at most one character, turning it into NUL; everything before it is kept. */
  lemma TrimmedBufferChangesOne(b: seq<char>)
    requires Nul in b
    ensures forall i :: 0 <= i < |b| && TrimmedBuffer(b)[i] != b[i] ==>
      TrimmedBuffer(b)[i] == Nul && i <= CLength(b) &&
      forall j :: 0 <= j < |b| && j != i ==> TrimmedBuffer(b)[j] == b[j]
  {
  }

  /** The string left in the buffer is the original with its trailing white space removed. */
  lemma TrimmedBufferString(b: seq<char>)
    requires Nul in b
    ensures CString(TrimmedBuffer(b)) == TrimEnd(CString(b))
  {
    var s := CString(b);
    var r := TrimmedBuffer(b);
    match LastNonSpace(s)
    case None =>
    case Some(k) =>
      assert r[k + 1] == Nul;
      assert r[..k + 1] == s[..k + 1];
      IndexOfIs(r, Nul, k + 1);
  }

  /** trim() applied to a copy of a string (as strdup() makes it) leaves TrimEnd of that string. */
  lemma TrimOfCopy(s: string)
    requires Nul !in s
    ensures Nul in s + [Nul]
    ensures CString(TrimmedBuffer(s + [Nul])) == TrimEnd(s)
  {
    var b := s + [Nul];
    assert b[..|s|] == s;
    IndexOfIs(b, Nul, |s|);
    TrimmedBufferString(b);
  }

  // ---------------------------------------------------------------------------
  // escape_shell_arg

  /** escape_shell_arg(): despite its comment, the argument is handed back unchanged. */
  function EscapeShellArg(s: string): (r: string)
    ensures r == s
  {
    s
  }
}
