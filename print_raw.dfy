/**
 * Raw printing over TCP (src/print_raw.c): for every copy a fresh socket is
 * connected to ip:port, the file is read in chunks of up to 8192 bytes, and
 * each chunk is pushed through send() until the peer has taken all of it,
 * redrawing a 40-cell progress bar after every send.
 */
module RawPrint {
  import opened Wrappers
  import opened Platform

  const ChunkSize: nat := 8192
  const BarWidth: nat := 40
  /** The 200 ms nanosleep after every copy, in microseconds. */
  const CopyPause: nat := 200000

  // ---------------------------------------------------------------------------
  // progress_bar

  /** The bar cells for head position `pos`: '=' before it, '>' on it, ' ' after it. */
  predicate IsBar(cells: string, pos: int) {
    && |cells| == BarWidth
    && forall i :: 0 <= i < BarWidth ==> cells[i] == (if i < pos then '=' else if i == pos then '>' else ' ')
  }

  /**
   * The head position (int)(progress * 40) for progress = sent / total, in
   * exact arithmetic; it reaches the last cell past the bar only when
   * everything is sent.
   */
  function BarPos(sent: nat, total: nat): (pos: int)
    requires 0 < total && sent <= total
    ensures 0 <= pos <= BarWidth
    ensures pos == BarWidth <==> sent == total
  {
    assert sent * 40 <= total * 40;
    if sent == total then
      assert sent * 40 / total == 40;
      sent * 40 / total
    else
      assert sent * 40 < total * 40;
      DivBelow(sent * 40, total, 40);
      sent * 40 / total
  }

  lemma DivBelow(x: nat, d: nat, k: nat)
    requires 0 < d && x < d * k
    ensures x / d < k
  {
    var q := x / d;
    assert d * q <= x;
    assert d * q < d * k;
  }

  /** progress_bar(): the loop choosing each of the 40 cells. */
  method ProgressBar(pos: int) returns (cells: string)
    ensures IsBar(cells, pos)
  {
    cells := "";
    var i := 0;
    while i < BarWidth
      invariant 0 <= i <= BarWidth && |cells| == i
      invariant forall j :: 0 <= j < i ==> cells[j] == (if j < pos then '=' else if j == pos then '>' else ' ')
    {
      if i < pos {
        cells := cells + "=";
      } else if i == pos {
        cells := cells + ">";
      } else {
        cells := cells + " ";
      }
      i := i + 1;
    }
  }

  /** A bar is determined by its head position. */
  lemma BarUnique(a: string, b: string, pos: int)
    requires IsBar(a, pos) && IsBar(b, pos)
    ensures a == b
  {
  }

  /** When the whole file is sent, every cell is '='. */
  lemma FullBar(cells: string, total: nat)
    requires 0 < total && IsBar(cells, BarPos(total, total))
    ensures forall i :: 0 <= i < |cells| ==> cells[i] == '='
  {
  }

  // ---------------------------------------------------------------------------
  // One copy

  /**
   * The frames drawn while sending a file of `total` bytes: each reports a
   * running byte count in 1..total with its bar, and the counts strictly
   * increase.
   */
  predicate RisingFrames(fs: seq<Frame>, total: nat) {
    && (forall i :: 0 <= i < |fs| ==> FrameOf(fs[i], total))
    && (forall i :: 0 <= i < |fs| - 1 ==> fs[i].sent < fs[i + 1].sent)
  }

  /** One frame of a transfer of `total` bytes: a running count in 1..total and its bar. */
  predicate FrameOf(f: Frame, total: nat) {
    f.total == total && 0 < f.sent <= total && IsBar(f.cells, BarPos(f.sent, total))
  }

  /** The socket `fd` of `conns` with `more` appended to its byte stream. */
  function Appended(conns: seq<Conn>, fd: nat, more: seq<Byte>): (r: seq<Conn>)
    requires fd < |conns|
    ensures |r| == |conns| && r[fd].data == conns[fd].data + more
    ensures r[fd].peer == conns[fd].peer && r[fd].closed == conns[fd].closed
    ensures forall k :: 0 <= k < |conns| && k != fd ==> r[k] == conns[k]
  {
    conns[fd := conns[fd].(data := conns[fd].data + more)]
  }

  /**
   * The state after the first `done` bytes of `file` went out on socket `fd`:
   * the socket's stream is its old stream plus exactly those bytes, and the
   * frames drawn since `frames0` rise to `done`.
   */
  predicate Progressed(conns: seq<Conn>, frames: seq<Frame>, c0: seq<Conn>, fd: nat, file: seq<Byte>,
                       frames0: seq<Frame>, done: nat)
  {
    && fd < |c0| && done <= |file|
    && conns == Appended(c0, fd, file[..done])
    && |frames| >= |frames0| && frames[..|frames0|] == frames0
    && RisingFrames(frames[|frames0|..], |file|)
    && (done == 0 <==> |frames| == |frames0|)
    && (|frames| > |frames0| ==> frames[|frames| - 1].sent == done)
  }

  /** One send that took `s` more bytes, followed by its frame, keeps the transfer in step. */
  lemma ProgressStep(conns: seq<Conn>, frames: seq<Frame>, c0: seq<Conn>, fd: nat, file: seq<Byte>,
                     frames0: seq<Frame>, done: nat, s: nat, cells: string)
    requires Progressed(conns, frames, c0, fd, file, frames0, done)
    requires 0 < s && done + s <= |file|
    requires IsBar(cells, BarPos(done + s, |file|))
    ensures Progressed(Appended(conns, fd, file[done..done + s]), frames + [Frame(done + s, |file|, cells)],
                       c0, fd, file, frames0, done + s)
  {
    assert file[..done] + file[done..done + s] == file[..done + s];
    AppendedTwice(c0, fd, file[..done], file[done..done + s]);
    var fs := frames + [Frame(done + s, |file|, cells)];
    assert fs[|frames0|..] == frames[|frames0|..] + [Frame(done + s, |file|, cells)];
    assert fs[..|frames0|] == frames[..|frames0|];
  }

  /** Every send() call numbered lo to hi - 1 succeeds, by the send oracle. */
  predicate SendsOk(os: Os, lo: nat, hi: nat) {
    forall k :: lo <= k < hi ==> os.sendOutcome(k) >= 0
  }

  /**
   * The inner send loop for the chunk file[pos..pos + n]: send() is called on
   * what is left of the chunk until all of it is taken, each short send
   * advancing the count by what it took; false on the first send error.
   */
  method SendChunk(os: Os, fd: nat, file: seq<Byte>, pos: nat, n: nat,
                   ghost c0: seq<Conn>, ghost frames0: seq<Frame>) returns (ok: bool)
    requires 0 < n && pos + n <= |file|
    requires Progressed(os.conns, os.frames, c0, fd, file, frames0, pos)
    modifies os`conns, os`sendCalls, os`frames
    ensures ok ==> Progressed(os.conns, os.frames, c0, fd, file, frames0, pos + n)
    ensures !ok ==> exists k :: pos <= k < pos + n && Progressed(os.conns, os.frames, c0, fd, file, frames0, k)
    ensures os.sendCalls >= old(os.sendCalls) && (ok <==> SendsOk(os, old(os.sendCalls), os.sendCalls))
  {
    var total := |file|;
    var buf := file[pos..pos + n];
    var sent := 0;
    var sentTotal := pos;
    while sent < n
      invariant 0 <= sent <= n && sentTotal == pos + sent
      invariant Progressed(os.conns, os.frames, c0, fd, file, frames0, pos + sent)
      invariant os.sendCalls >= old(os.sendCalls) && SendsOk(os, old(os.sendCalls), os.sendCalls)
    {
      ghost var conns := os.conns;
      ghost var frames := os.frames;
      var s := os.Send(fd, buf[sent..]);
      if s < 0 {
        assert os.sendOutcome(os.sendCalls - 1) < 0;
        return false;
      }
      assert buf[sent..][..s] == file[pos + sent..pos + sent + s];
      assert os.conns == Appended(conns, fd, file[pos + sent..pos + sent + s]);
      sent := sent + s;
      sentTotal := sentTotal + s;
      var cells := ProgressBar(BarPos(sentTotal, total));
      ProgressStep(conns, frames, c0, fd, file, frames0, pos + sent - s, s, cells);
      os.Show(Frame(sentTotal, total, cells));
    }
    return true;
  }

  /** Appending twice to one socket's stream appends the concatenation. */
  lemma AppendedTwice(conns: seq<Conn>, fd: nat, a: seq<Byte>, b: seq<Byte>)
    requires fd < |conns|
    ensures Appended(Appended(conns, fd, a), fd, b) == Appended(conns, fd, a + b)
  {
    assert conns[fd].data + a + b == conns[fd].data + (a + b);
  }

  /**
   * The fread/send loops of one copy. On success the socket's stream has
   * grown by exactly the file's bytes, in order, and the last frame reports
   * the whole file; on a send error (false, the -6 path) it has grown by a
   * proper prefix of them. No frame is drawn for an empty file.
   */
  method SendStream(os: Os, fd: nat, file: seq<Byte>) returns (ok: bool)
    requires fd < |os.conns|
    modifies os`conns, os`sendCalls, os`frames
    ensures ok ==> os.conns == Appended(old(os.conns), fd, file)
    ensures !ok ==> exists k :: 0 <= k < |file| && os.conns == Appended(old(os.conns), fd, file[..k])
    ensures |os.frames| >= |old(os.frames)| && os.frames[..|old(os.frames)|] == old(os.frames)
    ensures RisingFrames(os.frames[|old(os.frames)|..], |file|)
    ensures ok ==> (|os.frames| == |old(os.frames)| <==> file == [])
    ensures ok && file != [] ==> os.frames[|os.frames| - 1].sent == |file|
    ensures os.sendCalls >= old(os.sendCalls) && (ok <==> SendsOk(os, old(os.sendCalls), os.sendCalls))
  {
    ghost var c0 := os.conns;
    ghost var frames0 := os.frames;
    var total := |file|;
    var pos := 0;
    assert file[..0] == [] && c0[fd].data + [] == c0[fd].data;
    assert Appended(c0, fd, file[..0]) == c0;
    assert os.frames[|frames0|..] == [];
    while pos < total
      invariant 0 <= pos <= total
      invariant Progressed(os.conns, os.frames, c0, fd, file, frames0, pos)
      invariant os.sendCalls >= old(os.sendCalls) && SendsOk(os, old(os.sendCalls), os.sendCalls)
    {
      var n := if total - pos < ChunkSize then total - pos else ChunkSize;
      ghost var calls := os.sendCalls;
      ok := SendChunk(os, fd, file, pos, n, c0, frames0);
      if !ok {
        assert !SendsOk(os, calls, os.sendCalls);
        return;
      }
      pos := pos + n;
    }
    assert file[..pos] == file;
    return true;
  }

  // ---------------------------------------------------------------------------
  // send_file_raw

  /**
   * htons(port) stored in sin_port: the int is converted to a 16-bit
   * unsigned value, so it wraps modulo 65536, negative numbers included.
   */
  function WirePort(port: int): (p: Port)
    ensures (p - port) % 65536 == 0
    ensures 0 <= port < 65536 ==> p == port
  {
    port % 65536
  }

  /** The port a socket reaches is the only 16-bit value congruent to the given one. */
  lemma WirePortUnique(port: int, q: Port)
    requires (q - port) % 65536 == 0
    ensures q == WirePort(port)
  {
    var p := WirePort(port);
    assert (q - p) % 65536 == 0 by {
      assert q - p == (q - port) - (p - port);
    }
    assert -65536 < q - p < 65536;
  }

  /** Out-of-range ports wrap: --port 70000 reaches 4464 and --port -1 reaches 65535. */
  lemma WirePortWraps()
    ensures WirePort(70000) == 4464 && WirePort(-1) == 65535 && WirePort(9100) == 9100
  {
  }

  /** A socket that carried one whole copy: connected to ip and the 16-bit form of port, holding exactly the file, closed. */
  predicate Delivered(c: Conn, ip: string, port: int, file: seq<Byte>) {
    c == Conn(Some((ip, WirePort(port))), file, true)
  }

  /** Every socket of conns[lo..hi] carried one whole copy of the file `filename` to ip:port. */
  predicate DeliveredRange(conns: seq<Conn>, lo: nat, hi: nat, ip: string, port: int,
                           files: map<string, seq<Byte>>, filename: string)
    requires lo <= hi <= |conns|
  {
    lo < hi ==> filename in files && forall k :: lo <= k < hi ==> Delivered(conns[k], ip, port, files[filename])
  }

  /** Appending sockets keeps what the earlier ones carried. */
  lemma DeliveredRangeKept(a: seq<Conn>, b: seq<Conn>, lo: nat, hi: nat, ip: string, port: int,
                           files: map<string, seq<Byte>>, filename: string)
    requires lo <= hi <= |a| <= |b| && b[..|a|] == a
    requires DeliveredRange(a, lo, hi, ip, port, files, filename)
    ensures DeliveredRange(b, lo, hi, ip, port, files, filename)
  {
    if lo < hi {
      forall k | lo <= k < hi
        ensures Delivered(b[k], ip, port, files[filename])
      {
        assert b[k] == b[..|a|][k] == a[k];
      }
    }
  }

  /** One more delivered socket extends the range. */
  lemma DeliveredRangeGrow(conns: seq<Conn>, lo: nat, hi: nat, ip: string, port: int,
                           files: map<string, seq<Byte>>, filename: string)
    requires lo <= hi < |conns|
    requires DeliveredRange(conns, lo, hi, ip, port, files, filename)
    requires filename in files && Delivered(conns[hi], ip, port, files[filename])
    ensures DeliveredRange(conns, lo, hi + 1, ip, port, files, filename)
  {
  }

  /**
   * Since `frames0`, frames were only added, and each is a frame of a
   * transfer of the file `filename`.
   */
  predicate FramesSince(frames: seq<Frame>, frames0: seq<Frame>, files: map<string, seq<Byte>>, filename: string) {
    && |frames| >= |frames0| && frames[..|frames0|] == frames0
    && (|frames| > |frames0| ==> filename in files)
    && (filename in files ==> forall k :: |frames0| <= k < |frames| ==> FrameOf(frames[k], |files[filename]|))
  }

  /** One more copy's rising frames keep every frame since `frames0` a frame of the file. */
  lemma FramesSinceGrow(a: seq<Frame>, b: seq<Frame>, frames0: seq<Frame>, files: map<string, seq<Byte>>, filename: string)
    requires FramesSince(a, frames0, files, filename)
    requires |b| >= |a| && b[..|a|] == a
    requires |b| > |a| ==> filename in files
    requires filename in files ==> RisingFrames(b[|a|..], |files[filename]|)
    ensures FramesSince(b, frames0, files, filename)
  {
    assert b[..|frames0|] == a[..|frames0|];
    if filename in files {
      forall k | |frames0| <= k < |b|
        ensures FrameOf(b[k], |files[filename]|)
      {
        if k < |a| {
          assert b[k] == a[k];
        } else {
          assert b[k] == b[|a|..][k - |a|];
        }
      }
    }
  }

  /**
   * The code one copy returns, from the oracles: the first phase that fails
   * decides (socket -2, inet_pton -3, connect -4, fopen -5, send -6), and 0
   * when none does. `socketCall` and `connectCall` number the copy's socket()
   * and connect() calls; `sendsOk` says whether all its send() calls succeed.
   */
  function CopyCode(os: Os, socketCall: nat, connectCall: nat, ip: string, filename: string, sendsOk: bool): (rc: int)
    ensures rc in {0, -2, -3, -4, -5, -6}
    ensures rc == -2 <==> !os.socketOk(socketCall)
    ensures rc == -3 <==> os.socketOk(socketCall) && !os.addressOk(ip)
    ensures rc == -4 <==> os.socketOk(socketCall) && os.addressOk(ip) && !os.connectOk(connectCall)
    ensures rc == -5 <==> os.socketOk(socketCall) && os.addressOk(ip) && os.connectOk(connectCall) && filename !in os.files
    ensures rc == -6 <==> os.socketOk(socketCall) && os.addressOk(ip) && os.connectOk(connectCall) && filename in os.files && !sendsOk
    ensures rc == 0 <==> os.socketOk(socketCall) && os.addressOk(ip) && os.connectOk(connectCall) && filename in os.files && sendsOk
  {
    if !os.socketOk(socketCall) then -2
    else if !os.addressOk(ip) then -3
    else if !os.connectOk(connectCall) then -4
    else if filename !in os.files then -5
    else if !sendsOk then -6
    else 0
  }

  /**
   * The file part of one copy on the connected socket `sock`: fopen, the
   * transfer, fclose. -5 when the file cannot be opened, -6 on a send error,
   * 0 when the whole file went out.
   */
  method SendFileOn(os: Os, sock: nat, filename: string) returns (rc: int)
    requires sock < |os.conns|
    modifies os`sendCalls, os`conns, os`openFiles, os`frames
    ensures os.openFiles == old(os.openFiles)
    ensures rc in {0, -5, -6}
    ensures rc == -5 <==> filename !in os.files
    ensures rc == -5 ==> os.conns == old(os.conns) && os.frames == old(os.frames) && os.sendCalls == old(os.sendCalls)
    ensures os.sendCalls >= old(os.sendCalls)
    ensures rc != -5 ==> (rc == 0 <==> SendsOk(os, old(os.sendCalls), os.sendCalls))
    ensures rc == 0 ==> os.conns == Appended(old(os.conns), sock, os.files[filename])
    ensures rc == -6 ==> exists k :: 0 <= k < |os.files[filename]| && os.conns == Appended(old(os.conns), sock, os.files[filename][..k])
    ensures |os.frames| >= |old(os.frames)| && os.frames[..|old(os.frames)|] == old(os.frames)
    ensures filename in os.files ==> RisingFrames(os.frames[|old(os.frames)|..], |os.files[filename]|)
    ensures rc == 0 ==> (|os.frames| == |old(os.frames)| <==> os.files[filename] == [])
    ensures rc == 0 && os.files[filename] != [] ==> os.frames[|os.frames| - 1].sent == |os.files[filename]|
  {
    var f := os.Fopen(filename);
    if f.None? {
      return -5;
    }
    var ok := SendStream(os, sock, f.value);
    os.Fclose();
    return if ok then 0 else -6;
  }

  /**
   * The body of the copy loop: socket, inet_pton, connect, fopen, the
   * transfer, then fclose, close and the pause. Each failure returns its own
   * code at once, after closing the socket (and the file, when open): the
   * code is CopyCode of the oracles this copy consults.
   */
  method CopyOnce(os: Os, ip: string, port: int, filename: string) returns (rc: int)
    modifies os`socketCalls, os`connectCalls, os`sendCalls, os`conns, os`openFiles, os`frames, os`sleeps
    ensures rc == CopyCode(os, old(os.socketCalls), old(os.connectCalls), ip, filename,
                           SendsOk(os, old(os.sendCalls), os.sendCalls))
    ensures os.socketCalls == old(os.socketCalls) + 1
    ensures os.connectCalls == old(os.connectCalls) + (if rc in {-2, -3} then 0 else 1)
    ensures os.sendCalls >= old(os.sendCalls)
    ensures rc in {-2, -3, -4, -5} ==> os.sendCalls == old(os.sendCalls)
    ensures rc in {0, -2, -3, -4, -5, -6}
    ensures os.openFiles == old(os.openFiles)
    ensures rc == -2 ==> os.conns == old(os.conns)
    ensures rc != -2 ==> |os.conns| == |old(os.conns)| + 1 && os.conns[..|old(os.conns)|] == old(os.conns)
    ensures rc != -2 ==> os.conns[|old(os.conns)|].closed
    ensures rc == 0 ==> filename in os.files && Delivered(os.conns[|old(os.conns)|], ip, port, os.files[filename])
    ensures rc == 0 ==> os.sleeps == old(os.sleeps) + [CopyPause]
    ensures rc != 0 ==> os.sleeps == old(os.sleeps)
    ensures rc == -2 ==> !os.socketOk(old(os.socketCalls))
    ensures rc == -3 ==> !os.addressOk(ip) && os.conns[|old(os.conns)|].data == []
    ensures rc == -4 ==> os.addressOk(ip) && os.conns[|old(os.conns)|].peer.None?
    ensures rc == -5 ==> filename !in os.files && os.conns[|old(os.conns)|].data == []
    ensures rc == -6 ==> filename in os.files && os.conns[|old(os.conns)|].data < os.files[filename]
    ensures |os.frames| >= |old(os.frames)| && os.frames[..|old(os.frames)|] == old(os.frames)
    ensures rc in {-2, -3, -4, -5} ==> os.frames == old(os.frames)
    ensures filename in os.files ==> RisingFrames(os.frames[|old(os.frames)|..], |os.files[filename]|)
    ensures rc == 0 ==> (|os.frames| == |old(os.frames)| <==> os.files[filename] == [])
    ensures rc == 0 && os.files[filename] != [] ==> os.frames[|os.frames| - 1].sent == |os.files[filename]|
  {
    var sock := os.Socket();
    if sock < 0 {
      return -2;
    }
    if !os.addressOk(ip) {
      os.Close(sock);
      return -3;
    }
    var wire := WirePort(port);
    var connected := os.Connect(sock, ip, wire);
    if !connected {
      os.Close(sock);
      return -4;
    }
    ghost var linked := os.conns;
    rc := SendFileOn(os, sock, filename);
    if rc == -6 {
      ghost var k :| 0 <= k < |os.files[filename]| && os.conns == Appended(linked, sock, os.files[filename][..k]);
      assert os.conns[sock].data == os.files[filename][..k];
    }
    os.Close(sock);
    if rc == 0 {
      os.Sleep(CopyPause);
    }
  }

  /**
   * `done` copies went through, from the counters r0 to r1: one socket() and
   * one connect() call each, all allowed by the oracles, a valid address, a
   * readable file, and every send() call a success.
   */
  predicate CopiesPassed(os: Os, ip: string, filename: string, done: nat, r0: Effects, r1: Effects) {
    && r1.socketCalls == r0.socketCalls + done && r1.connectCalls == r0.connectCalls + done
    && r1.sendCalls >= r0.sendCalls && SendsOk(os, r0.sendCalls, r1.sendCalls)
    && (forall c :: r0.socketCalls <= c < r0.socketCalls + done ==> os.socketOk(c))
    && (forall c :: r0.connectCalls <= c < r0.connectCalls + done ==> os.connectOk(c))
    && (done > 0 ==> os.addressOk(ip) && filename in os.files)
  }

  /**
   * How the copy loop of send_file_raw, with both arguments present, ended
   * after `done` whole copies: 0 when every one of max(copies, 0) copies went
   * through; otherwise the copies before went through and the next one
   * returned CopyCode of the oracles it consulted.
   */
  predicate CopiesEnded(os: Os, ip: string, filename: string, copies: int, rc: int, done: nat, r0: Effects, r1: Effects) {
    && (rc == 0 ==> done == (if copies < 0 then 0 else copies) && CopiesPassed(os, ip, filename, done, r0, r1))
    && (rc != 0 ==>
          && done < copies
          && r1.socketCalls == r0.socketCalls + done + 1
          && r1.connectCalls == r0.connectCalls + done + (if rc in {-2, -3} then 0 else 1)
          && r1.sendCalls >= r0.sendCalls
          && (forall c :: r0.socketCalls <= c < r0.socketCalls + done ==> os.socketOk(c))
          && (forall c :: r0.connectCalls <= c < r0.connectCalls + done ==> os.connectOk(c))
          && (done > 0 ==> os.addressOk(ip) && filename in os.files)
          && rc == CopyCode(os, r0.socketCalls + done, r0.connectCalls + done, ip, filename,
                            SendsOk(os, r0.sendCalls, r1.sendCalls)))
  }

  /** One more copy, from the counters `mid` to r1, either extends the copies that went through or ends the loop. */
  lemma CopiesStep(os: Os, ip: string, filename: string, copies: int, done: nat, rc: int, r0: Effects, mid: Effects, r1: Effects)
    requires CopiesPassed(os, ip, filename, done, r0, mid) && done < copies
    requires rc == CopyCode(os, mid.socketCalls, mid.connectCalls, ip, filename, SendsOk(os, mid.sendCalls, r1.sendCalls))
    requires r1.socketCalls == mid.socketCalls + 1
    requires r1.connectCalls == mid.connectCalls + (if rc in {-2, -3} then 0 else 1)
    requires r1.sendCalls >= mid.sendCalls
    ensures rc == 0 ==> CopiesPassed(os, ip, filename, done + 1, r0, r1)
    ensures rc != 0 ==> CopiesEnded(os, ip, filename, copies, rc, done, r0, r1)
  {
    assert SendsOk(os, r0.sendCalls, r1.sendCalls) == SendsOk(os, mid.sendCalls, r1.sendCalls) by {
      if SendsOk(os, mid.sendCalls, r1.sendCalls) {
        forall k | r0.sendCalls <= k < r1.sendCalls
          ensures os.sendOutcome(k) >= 0
        {
          if k < mid.sendCalls {
            assert r0.sendCalls <= k < mid.sendCalls;
          }
        }
      }
    }
  }

  /** With at least one copy asked for, a refused first socket() gives -2 before any copy goes through. */
  lemma RawSocketRefused(os: Os, ip: string, filename: string, copies: int, rc: int, done: nat, r0: Effects, r1: Effects)
    requires CopiesEnded(os, ip, filename, copies, rc, done, r0, r1)
    requires copies >= 1 && !os.socketOk(r0.socketCalls)
    ensures rc == -2 && done == 0
  {
  }

  /** With at least one copy asked for and the first socket granted, an address inet_pton refuses gives -3. */
  lemma RawInvalidAddress(os: Os, ip: string, filename: string, copies: int, rc: int, done: nat, r0: Effects, r1: Effects)
    requires CopiesEnded(os, ip, filename, copies, rc, done, r0, r1)
    requires copies >= 1 && os.socketOk(r0.socketCalls) && !os.addressOk(ip)
    ensures rc == -3 && done == 0
  {
  }

  /** A missing file stops the first copy that reaches fopen with -5; no copy goes through. */
  lemma RawMissingFile(os: Os, ip: string, filename: string, copies: int, rc: int, done: nat, r0: Effects, r1: Effects)
    requires CopiesEnded(os, ip, filename, copies, rc, done, r0, r1)
    requires copies >= 1 && filename !in os.files
    ensures rc in {-2, -3, -4, -5} && done == 0
  {
  }

  /** Every failure code means the copy that stopped the loop failed in that phase, the earlier ones having gone through. */
  lemma RawCodeMeaning(os: Os, ip: string, filename: string, copies: int, rc: int, done: nat, r0: Effects, r1: Effects)
    requires CopiesEnded(os, ip, filename, copies, rc, done, r0, r1) && rc != 0
    ensures rc == -2 <==> !os.socketOk(r0.socketCalls + done)
    ensures rc == -3 <==> os.socketOk(r0.socketCalls + done) && !os.addressOk(ip)
    ensures rc == -4 <==> os.socketOk(r0.socketCalls + done) && os.addressOk(ip) && !os.connectOk(r0.connectCalls + done)
    ensures rc == -5 ==> filename !in os.files
    ensures rc == -6 ==> filename in os.files && !SendsOk(os, r0.sendCalls, r1.sendCalls)
  {
  }

  /**
   * The loop of send_file_raw after `c` copies went through, against the
   * sockets, pauses and counters it started from: one closed socket per copy
   * carrying the whole file, one pause per copy, no file left open.
   */
  predicate Ledger(os: Os, ip: string, port: int, filename: string, c: nat,
                   c0: seq<Conn>, s0: seq<nat>, r0: Effects)
    reads os
  {
    && os.openFiles == r0.openFiles
    && |os.conns| == |c0| + c && os.conns[..|c0|] == c0
    && |os.sleeps| == |s0| + c && os.sleeps[..|s0|] == s0
    && (forall k :: |s0| <= k < |os.sleeps| ==> os.sleeps[k] == CopyPause)
    && DeliveredRange(os.conns, |c0|, |os.conns|, ip, port, os.files, filename)
    && FramesSince(os.frames, r0.frames, os.files, filename)
    && CopiesPassed(os, ip, filename, c, r0, os.Rest())
  }

  /** The loop stopped at copy `c` with the code `rc`: the copies before it delivered, its own socket (if any) closed. */
  predicate Stopped(os: Os, ip: string, port: int, filename: string, copies: int, rc: int, c: nat,
                    c0: seq<Conn>, s0: seq<nat>, r0: Effects)
    reads os
  {
    && rc in {-2, -3, -4, -5, -6}
    && os.openFiles == r0.openFiles
    && |os.conns| == |c0| + c + (if rc == -2 then 0 else 1) && os.conns[..|c0|] == c0
    && (forall k :: |c0| <= k < |os.conns| ==> os.conns[k].closed)
    && |os.sleeps| == |s0| + c && os.sleeps[..|s0|] == s0
    && (forall k :: |s0| <= k < |os.sleeps| ==> os.sleeps[k] == CopyPause)
    && DeliveredRange(os.conns, |c0|, |c0| + c, ip, port, os.files, filename)
    && FramesSince(os.frames, r0.frames, os.files, filename)
    && CopiesEnded(os, ip, filename, copies, rc, c, r0, os.Rest())
  }

  /** One round of the copy loop: CopyOnce, then the ledger either grows by one copy or the loop stops. */
  method NextCopy(os: Os, ip: string, port: int, filename: string, copies: int, c: nat,
                  ghost c0: seq<Conn>, ghost s0: seq<nat>, ghost r0: Effects) returns (rc: int)
    requires c < copies && Ledger(os, ip, port, filename, c, c0, s0, r0)
    modifies os`socketCalls, os`connectCalls, os`sendCalls, os`conns, os`openFiles, os`frames, os`sleeps
    ensures rc == 0 ==> Ledger(os, ip, port, filename, c + 1, c0, s0, r0)
    ensures rc != 0 ==> Stopped(os, ip, port, filename, copies, rc, c, c0, s0, r0)
  {
    ghost var before := os.conns;
    ghost var framesBefore := os.frames;
    ghost var mid := os.Rest();
    rc := CopyOnce(os, ip, port, filename);
    FramesSinceGrow(framesBefore, os.frames, r0.frames, os.files, filename);
    CopiesStep(os, ip, filename, copies, c, rc, r0, mid, os.Rest());
    if rc != 0 {
      if rc != -2 {
        DeliveredRangeKept(before, os.conns, |c0|, |before|, ip, port, os.files, filename);
        assert os.conns[..|c0|] == before[..|c0|];
      }
      return;
    }
    DeliveredRangeKept(before, os.conns, |c0|, |before|, ip, port, os.files, filename);
    DeliveredRangeGrow(os.conns, |c0|, |before|, ip, port, os.files, filename);
    assert os.conns[..|c0|] == before[..|c0|];
    assert os.sleeps[..|s0|] == old(os.sleeps)[..|s0|];
  }

  /**
   * send_file_raw(): -1 when the address or file name is NULL, before any
   * socket exists; otherwise `copies` copies one after the other, stopping at
   * the first failure with that copy's code, and 0 after all of them.
   */
  method SendFileRaw(os: Os, ip: Option<string>, port: int, filename: Option<string>, copies: int) returns (rc: int)
    modifies os`socketCalls, os`connectCalls, os`sendCalls, os`conns, os`openFiles, os`frames, os`sleeps
    ensures rc in {0, -1, -2, -3, -4, -5, -6}
    ensures rc == -1 <==> ip.None? || filename.None?
    ensures rc == -1 ==> os.conns == old(os.conns) && os.socketCalls == old(os.socketCalls)
    ensures os.openFiles == old(os.openFiles)
    ensures |os.conns| >= |old(os.conns)| && os.conns[..|old(os.conns)|] == old(os.conns)
    ensures forall k :: |old(os.conns)| <= k < |os.conns| ==> os.conns[k].closed
    ensures var done := |os.sleeps| - |old(os.sleeps)|;
      && |os.sleeps| >= |old(os.sleeps)| && os.sleeps[..|old(os.sleeps)|] == old(os.sleeps)
      && (forall k :: |old(os.sleeps)| <= k < |os.sleeps| ==> os.sleeps[k] == CopyPause)
      && (rc == 0 ==> done == (if copies < 0 then 0 else copies))
      && (rc < -1 ==> done < copies)
      && |os.conns| == |old(os.conns)| + done + (if rc < -2 then 1 else 0)
      && (done > 0 ==> ip.Some? && filename.Some?)
      && (ip.Some? && filename.Some? ==>
            DeliveredRange(os.conns, |old(os.conns)|, |old(os.conns)| + done, ip.value, port, os.files, filename.value))
    ensures rc == -3 ==> !os.addressOk(ip.value)
    ensures rc == -5 ==> filename.value !in os.files
    ensures |os.frames| >= |old(os.frames)| && os.frames[..|old(os.frames)|] == old(os.frames)
    ensures |os.frames| > |old(os.frames)| ==> filename.Some? && filename.value in os.files
    ensures filename.Some? && filename.value in os.files ==>
      forall k :: |old(os.frames)| <= k < |os.frames| ==> FrameOf(os.frames[k], |os.files[filename.value]|)
    ensures |os.sleeps| >= |old(os.sleeps)| && (ip.Some? && filename.Some? ==>
      CopiesEnded(os, ip.value, filename.value, copies, rc, |os.sleeps| - |old(os.sleeps)|, old(os.Rest()), os.Rest()))
  {
    if ip.None? || filename.None? {
      return -1;
    }
    ghost var c0 := os.conns;
    ghost var s0 := os.sleeps;
    ghost var r0 := os.Rest();
    var c := 0;
    assert os.conns[..|c0|] == c0 && os.sleeps[..|s0|] == s0;
    while c < copies
      invariant 0 <= c && (copies >= 0 ==> c <= copies) && (copies < 0 ==> c == 0)
      invariant Ledger(os, ip.value, port, filename.value, c, c0, s0, r0)
    {
      rc := NextCopy(os, ip.value, port, filename.value, copies, c, c0, s0, r0);
      if rc != 0 {
        return;
      }
      c := c + 1;
    }
    assert |os.sleeps| - |old(os.sleeps)| == c;
    return 0;
  }
}
