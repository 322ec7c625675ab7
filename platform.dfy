/**
 * The operating-system services the raw printing path calls (socket,
 * inet_pton, connect, fopen/fclose, send, close, nanosleep) and the progress
 * frames it draws on the terminal. What the system would decide is given as
 * oracles fixed at construction; what the program does to the system is
 * recorded in the mutable fields.
 */
module Platform {
  import opened Wrappers

  type Byte = x: int | 0 <= x < 256

  /** The 16-bit port number a sockaddr_in carries. */
  type Port = p: int | 0 <= p < 65536

  /** One socket: the peer it connected to (None until connect() succeeds), the bytes sent on it, whether it was closed. */
  datatype Conn = Conn(peer: Option<(string, Port)>, data: seq<Byte>, closed: bool)

  /** One redraw of the transfer progress bar: bytes sent so far, file size, and the 40 bar cells. */
  datatype Frame = Frame(sent: nat, total: nat, cells: string)

  /** The call counters, open files and progress frames of an Os, as one value. */
  datatype Effects = Effects(socketCalls: nat, connectCalls: nat, sendCalls: nat, openFiles: nat, frames: seq<Frame>)

  class Os {
    /** Whether the k-th socket() call succeeds. */
    const socketOk: nat -> bool
    /** Whether inet_pton() accepts the text as an IPv4 address. */
    const addressOk: string -> bool
    /** Whether the k-th connect() call succeeds. */
    const connectOk: nat -> bool
    /** The readable files and their contents. */
    const files: map<string, seq<Byte>>
    /** The k-th send() call: negative for an error, otherwise how many bytes the peer takes. */
    const sendOutcome: nat -> int

    var socketCalls: nat
    var connectCalls: nat
    var sendCalls: nat
    /** Every socket created, indexed by its descriptor. */
    var conns: seq<Conn>
    /** How many files are open. */
    var openFiles: nat
    /** Progress bar redraws, in order. */
    var frames: seq<Frame>
    /** Sleeps, in microseconds. */
    var sleeps: seq<nat>

    constructor (socketOk: nat -> bool, addressOk: string -> bool, connectOk: nat -> bool,
                 files: map<string, seq<Byte>>, sendOutcome: nat -> int)
      ensures this.socketOk == socketOk && this.addressOk == addressOk && this.connectOk == connectOk
      ensures this.files == files && this.sendOutcome == sendOutcome
      ensures socketCalls == 0 && connectCalls == 0 && sendCalls == 0
      ensures conns == [] && openFiles == 0 && frames == [] && sleeps == []
    {
      this.socketOk := socketOk;
      this.addressOk := addressOk;
      this.connectOk := connectOk;
      this.files := files;
      this.sendOutcome := sendOutcome;
      socketCalls, connectCalls, sendCalls := 0, 0, 0;
      conns, openFiles, frames, sleeps := [], 0, [], [];
    }

    /** The counters, open files and frames, leaving out the sockets and the pauses. */
    function Rest(): Effects
      reads this
    {
      Effects(socketCalls, connectCalls, sendCalls, openFiles, frames)
    }

    /** socket(): a new open, unconnected socket, or -1. */
    method Socket() returns (fd: int)
      modifies this`socketCalls, this`conns
      ensures socketCalls == old(socketCalls) + 1
      ensures socketOk(old(socketCalls)) ==> fd == |old(conns)| && conns == old(conns) + [Conn(None, [], false)]
      ensures !socketOk(old(socketCalls)) ==> fd == -1 && conns == old(conns)
    {
      if socketOk(socketCalls) {
        fd := |conns|;
        conns := conns + [Conn(None, [], false)];
      } else {
        fd := -1;
      }
      socketCalls := socketCalls + 1;
    }

    /** connect(): on success the socket's peer becomes (ip, port). */
    method Connect(fd: nat, ip: string, port: Port) returns (ok: bool)
      requires fd < |conns|
      modifies this`connectCalls, this`conns
      ensures connectCalls == old(connectCalls) + 1
      ensures ok == connectOk(old(connectCalls))
      ensures ok ==> conns == old(conns)[fd := old(conns)[fd].(peer := Some((ip, port)))]
      ensures !ok ==> conns == old(conns)
    {
      ok := connectOk(connectCalls);
      if ok {
        conns := conns[fd := conns[fd].(peer := Some((ip, port)))];
      }
      connectCalls := connectCalls + 1;
    }

    /** close() */
    method Close(fd: nat)
      requires fd < |conns|
      modifies this`conns
      ensures conns == old(conns)[fd := old(conns)[fd].(closed := true)]
    {
      conns := conns[fd := conns[fd].(closed := true)];
    }

    /** fopen(name, "rb"): the file's contents, or None for NULL. */
    method Fopen(name: string) returns (content: Option<seq<Byte>>)
      modifies this`openFiles
      ensures name in files ==> content == Some(files[name]) && openFiles == old(openFiles) + 1
      ensures name !in files ==> content.None? && openFiles == old(openFiles)
    {
      if name in files {
        content := Some(files[name]);
        openFiles := openFiles + 1;
      } else {
        content := None;
      }
    }

    /** fclose() */
    method Fclose()
      requires openFiles > 0
      modifies this`openFiles
      ensures openFiles == old(openFiles) - 1
    {
      openFiles := openFiles - 1;
    }

    /**
     * send(): -1 on error; otherwise the peer takes a non-empty prefix of the
     * buffer, which is appended to the socket's byte stream. (A blocking
     * stream socket does not report 0 bytes for a non-empty buffer; an oracle
     * value of 0 is read as one byte.)
     */
    method Send(fd: nat, buf: seq<Byte>) returns (s: int)
      requires fd < |conns| && |buf| > 0
      modifies this`sendCalls, this`conns
      ensures sendCalls == old(sendCalls) + 1
      ensures s < 0 <==> sendOutcome(old(sendCalls)) < 0
      ensures s < 0 ==> s == -1 && conns == old(conns)
      ensures s >= 0 ==> 1 <= s <= |buf|
      ensures s >= 0 ==> conns == old(conns)[fd := old(conns)[fd].(data := old(conns)[fd].data + buf[..s])]
    {
      var q := sendOutcome(sendCalls);
      sendCalls := sendCalls + 1;
      if q < 0 {
        s := -1;
      } else {
        s := if q == 0 then 1 else if q > |buf| then |buf| else q;
        conns := conns[fd := conns[fd].(data := conns[fd].data + buf[..s])];
      }
    }

    /** Draw one progress frame. */
    method Show(f: Frame)
      modifies this`frames
      ensures frames == old(frames) + [f]
    {
      frames := frames + [f];
    }

    /** nanosleep() / usleep() */
    method Sleep(micros: nat)
      modifies this`sleeps
      ensures sleeps == old(sleeps) + [micros]
    {
      sleeps := sleeps + [micros];
    }
  }
}
