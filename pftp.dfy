/**
 * The FTP download client: session defaults, the reply-code and exit-code tables,
 * and the fixed dialogue of one session (banner, USER, PASS, PASV, SIZE, RETR, then
 * the data transfer). The control channel is a script of the replies `recv` returns,
 * the data channel a script of the chunks it returns; a closed channel reads as empty.
 */
module Pftp {
  import opened Base
  import opened Text

  /** The message printed with each exit status. */
  const ExitCodes: map<int, string> := map[
    0 := "Operation successfully completed",
    1 := "Can't connect to server",
    2 := "Authentication failed",
    3 := "File not found",
    4 := "Syntax error in client request",
    5 := "Command not implemented by server",
    6 := "Operation not allowed by server",
    7 := "Generic error"]

  /** The exit status for the reply codes that have one of their own. */
  const ServResps: map<int, int> := map[500 := 4, 530 := 2, 550 := 3]

  datatype Session = Session(file: string, hostname: string, port: int, username: string, password: string)

  /** A session from the command line; options left out take their defaults. */
  function NewSession(file: string, hostname: string, port: Option<int>, username: Option<string>,
                      password: Option<string>): (s: Session)
    ensures s.file == file && s.hostname == hostname
    ensures port.None? ==> s.port == 21
    ensures port.Some? ==> s.port == port.value
    ensures username.None? ==> s.username == "anonymous"
    ensures username.Some? ==> s.username == username.value
    ensures password.None? ==> s.password == "user@localhost.localnet"
    ensures password.Some? ==> s.password == password.value
  {
    Session(file, hostname, port.GetOr(21), username.GetOr("anonymous"),
            password.GetOr("user@localhost.localnet"))
  }

  /** The text printed for an exit status; unknown statuses borrow the text of status 7. */
  function ExitMessage(errno: int): (m: string)
    ensures 0 <= errno <= 7 ==> m == ExitCodes[errno]
    ensures (errno < 0 || 7 < errno) ==> m == "Generic error"
  {
    if errno in ExitCodes then ExitCodes[errno] else ExitCodes[7]
  }

  /** The line printed on exit. */
  function ExitLine(errno: int): string {
    "Exit Code: " + IntToDecimal(errno) + (" - " + ExitMessage(errno))
  }

  /** The exit line names the status in a form that reads back as that status. */
  lemma ExitLineReadsBack(errno: int)
    ensures StartsWith(ExitLine(errno), "Exit Code: ")
    ensures var d := ExitLine(errno)[11..11 + |IntToDecimal(errno)|];
      PyInt(d) == Some(errno) && ExitLine(errno)[11 + |d|..] == " - " + ExitMessage(errno)
  {
    NumberReadsBack("Exit Code: ", errno, " - " + ExitMessage(errno));
  }

  /** A number printed between two pieces of text reads back as that number. */
  lemma NumberReadsBack(pre: string, n: int, post: string)
    ensures var line := pre + IntToDecimal(n) + post;
      var d := line[|pre|..|pre| + |IntToDecimal(n)|];
      StartsWith(line, pre) && PyInt(d) == Some(n) && line[|pre| + |d|..] == post
  {
    Seams(pre, IntToDecimal(n), post);
    PyIntRoundTrip(n);
  }

  /**
   * Comparing a reply code with the expected one: None when they agree (the session goes
   * on), otherwise the status the process exits with.
   */
  function CheckCode(response: int, expected: int): (r: Option<int>)
    ensures r.None? <==> response == expected
    ensures r.Some? ==> r.value == (if response == 530 then 2
                                    else if response == 550 then 3
                                    else if response == 500 then 4
                                    else 7)
  {
    if response == expected then None
    else Some(if response in ServResps then ServResps[response] else 7)
  }

  /** A failed check never reports success, a connection failure or a code the table lacks. */
  lemma MismatchExitCodes(response: int, expected: int)
    requires response != expected
    ensures CheckCode(response, expected).Some?
    ensures CheckCode(response, expected).value in {2, 3, 4, 7}
    ensures CheckCode(response, expected).value == 4 <==> response == 500
  {
  }

  // ---------------------------------------------------------------------------
  // Parsing replies

  /** `int(response[:3])`: None when Python would raise ValueError. */
  function ReplyCode(reply: string): Option<int> {
    PyInt(reply[..if |reply| < 3 then |reply| else 3])
  }

  /** A reply carries a given three-digit code exactly when it starts with those digits. */
  lemma ReplyCodeIs(reply: string, code: int)
    requires 100 <= code <= 999
    ensures ReplyCode(reply) == Some(code) <==> StartsWith(reply, NatToDecimal(code))
  {
    var t := reply[..if |reply| < 3 then |reply| else 3];
    var d := NatToDecimal(code);
    ThreeDigitCode(t, code);
    ThreeDigitLength(code);
    assert ReplyCode(reply) == PyInt(t);
    if |reply| < 3 {
      assert |t| < |d|;
    } else {
      assert StartsWith(reply, d) <==> t == d;
    }
  }

  /** A code from 100 to 999 is printed with three digits. */
  lemma ThreeDigitLength(code: int)
    requires 100 <= code <= 999
    ensures |NatToDecimal(code)| == 3
  {
    assert 10 <= code / 10 < 100 && 1 <= code / 100 < 10 && code / 10 / 10 == code / 100;
    assert NatToDecimal(code) == NatToDecimal(code / 10) + [DigitChar(code % 10)];
    assert NatToDecimal(code / 10) == NatToDecimal(code / 100) + [DigitChar(code / 10 % 10)];
  }

  /**
   * The data port of a PASV reply: the last two runs of digits, p1 and p2, give
   * p1 * 256 + p2; fewer than two runs raise IndexError (None).
   */
  function PasvPort(reply: string): Option<int> {
    var runs := DigitRuns(reply);
    if |runs| < 2 then None
    else Some(DecimalValue(runs[|runs| - 2]) * 256 + DecimalValue(runs[|runs| - 1]))
  }

  /** The file size in a SIZE reply: its last run of digits; none raises IndexError (None). */
  function FileSize(reply: string): Option<int> {
    var runs := DigitRuns(reply);
    if runs == [] then None else Some(DecimalValue(runs[|runs| - 1]))
  }

  /**
   * Whatever precedes the port numbers (the code, the text, the four host numbers), a
   * PASV reply ending in "p1<sep>p2<text without digits>" yields port p1 * 256 + p2.
   */
  lemma {:induction false} PasvPortOfReply(pre: string, p1: nat, sep: string, p2: nat, post: string)
    requires pre == [] || !IsDigit(pre[|pre| - 1])
    requires |sep| > 0 && NoDigits(sep) && NoDigits(post)
    ensures PasvPort(pre + NatToDecimal(p1) + sep + NatToDecimal(p2) + post) == Some(p1 * 256 + p2)
  {
    var d1, d2 := NatToDecimal(p1), NatToDecimal(p2);
    DigitRunsOfDecimal(p1);
    DigitRunsOfDecimal(p2);
    var tail := d1 + (sep + (d2 + post));
    TwoRuns(d1, sep, d2, post);
    DigitRunsAppend(pre, tail);
    AssociateFive(pre, d1, sep, d2, post);
    var runs := DigitRuns(pre) + [d1, d2];
    assert runs[|runs| - 2] == d1 && runs[|runs| - 1] == d2;
    DecimalRoundTrip(p1);
    DecimalRoundTrip(p2);
  }

  lemma AssociateFive(a: string, b: string, c: string, d: string, e: string)
    ensures a + b + c + d + e == a + (b + (c + (d + e)))
  {
  }

  /** Two runs of digits separated by, and followed by, text without digits. */
  lemma TwoRuns(d1: string, sep: string, d2: string, post: string)
    requires DigitRuns(d1) == [d1] && DigitRuns(d2) == [d2] && |d1| > 0 && |d2| > 0
    requires |sep| > 0 && NoDigits(sep) && NoDigits(post)
    ensures DigitRuns(d1 + (sep + (d2 + post))) == [d1, d2]
  {
    DigitRunsNone(sep);
    DigitRunsNone(post);
    DigitRunsAppend(d2, post);
    assert (sep + (d2 + post))[0] == sep[0];
    DigitRunsAppend(sep, d2 + post);
    DigitRunsAppend(d1, sep + (d2 + post));
  }

  /** The reply "227 Entering Passive Mode (127,0,0,1,4,1)" names data port 1025. */
  lemma PasvPortExample()
    ensures PasvPort("227 Entering Passive Mode (127,0,0,1,4,1)") == Some(1025)
  {
    var pre := "227 Entering Passive Mode (127,0,0,1,";
    assert NatToDecimal(4) == "4" && NatToDecimal(1) == "1";
    assert "227 Entering Passive Mode (127,0,0,1,4,1)" == pre + "4" + "," + "1" + ")";
    PasvPortOfReply(pre, 4, ",", 1, ")");
  }

  /** A SIZE reply whose last number is n reports size n, whatever its code. */
  lemma {:induction false} FileSizeOfReply(pre: string, n: nat, post: string)
    requires pre == [] || !IsDigit(pre[|pre| - 1])
    requires NoDigits(post)
    ensures FileSize(pre + NatToDecimal(n) + post) == Some(n)
  {
    var d := NatToDecimal(n);
    DigitRunsNone(post);
    DigitRunsOfDecimal(n);
    DigitRunsAppend(d, post);
    DigitRunsAppend(pre, d + post);
    assert pre + d + post == pre + (d + post);
    DecimalRoundTrip(n);
  }

  // ---------------------------------------------------------------------------
  // The session dialogue

  /** How a session ends: with an exit status, or by an exception nothing catches. */
  datatype End = Exit(code: int) | Raised

  datatype Phase =
    | AwaitBanner | AwaitUser | AwaitPass | AwaitPasv | AwaitSize | AwaitRetr
    | Transfer
    | Stopped(end: End)

  /** What the session has done so far. */
  datatype Control = Control(phase: Phase, log: seq<string>, sent: seq<string>,
                             dataPort: Option<int>, fileSize: Option<int>)

  /** Outcomes of the operations on the world outside the two channels. */
  datatype Environment = Environment(serverReachable: bool, dataReachable: bool, fileOpens: bool)

  /** What a session produces. */
  datatype Outcome = Outcome(end: End, log: seq<string>, sent: seq<string>,
                             dataPort: Option<int>, fileSize: Option<int>, written: seq<byte>)

  /** `connect` succeeds for a reachable peer on a valid port (others raise and exit 1). */
  predicate Connects(reachable: bool, port: int) {
    reachable && 0 <= port <= 65535
  }

  function UserCommand(s: Session): string { "USER " + s.username + "\r\n" }
  function PassCommand(s: Session): string { "PASS " + s.password + "\r\n" }
  const PasvCommand: string := "PASV\r\n"
  function SizeCommand(s: Session): string { "SIZE " + s.file + "\r\n" }
  function RetrCommand(s: Session): string { "RETR " + s.file + "\r\n" }

  /** Every command of a session, in the order they are sent. */
  function Commands(s: Session): seq<string> {
    [UserCommand(s), PassCommand(s), PasvCommand, SizeCommand(s), RetrCommand(s)]
  }

  function CommandLog(request: string): string { "C->S: " + request }
  function ReplyLog(response: string): string { "S->C: " + response }
  function BannerLog(response: string, hostname: string): string {
    "S->C: " + response[..if |response| < 3 then |response| else 3] + " Server " + hostname + "\n"
  }

  /** The reply read in the k-th `recv` on the control channel; a closed channel gives "". */
  function ReplyAt(replies: seq<string>, k: nat): string {
    if k < |replies| then replies[k] else ""
  }

  /** The phase that reads the k-th reply. */
  function Awaiting(k: nat): Phase
    requires k < 6
  {
    match k
    case 0 => AwaitBanner
    case 1 => AwaitUser
    case 2 => AwaitPass
    case 3 => AwaitPasv
    case 4 => AwaitSize
    case 5 => AwaitRetr
  }

  /** The code the k-th reply must carry (the SIZE reply, k = 4, is not checked). */
  function ExpectedCode(k: nat): int
    requires k < 6 && k != 4
  {
    match k
    case 0 => 220
    case 1 => 331
    case 2 => 230
    case 3 => 227
    case 5 => 150
  }

  /** How a reply's check ends the session, or None when the session goes on. */
  function Checked(reply: string, expected: int): Option<End> {
    match ReplyCode(reply)
    case None => Some(Raised)
    case Some(c) =>
      (match CheckCode(c, expected)
       case None => None
       case Some(e) => Some(Exit(e)))
  }

  function Stop(st: Control, e: End): Control { st.(phase := Stopped(e)) }

  function Send(st: Control, request: string, logged: bool): Control {
    st.(sent := st.sent + [request],
        log := if logged then st.log + [CommandLog(request)] else st.log)
  }

  function Receive(st: Control, response: string): Control {
    st.(log := st.log + [ReplyLog(response)])
  }

  /** The session's reaction to one reply. */
  function Step(s: Session, env: Environment, st: Control, reply: string): Control {
    match st.phase
    case AwaitBanner =>
      (match Checked(reply, 220)
       case Some(e) => Stop(st, e)
       case None =>
         var st1 := st.(log := st.log + [BannerLog(reply, s.hostname)]);
         Send(st1, UserCommand(s), true).(phase := AwaitUser))
    case AwaitUser =>
      var st1 := Receive(st, reply);
      (match Checked(reply, 331)
       case Some(e) => Stop(st1, e)
       case None => Send(st1, PassCommand(s), true).(phase := AwaitPass))
    case AwaitPass =>
      var st1 := Receive(st, reply);
      (match Checked(reply, 230)
       case Some(e) => Stop(st1, e)
       case None => Send(st1, PasvCommand, true).(phase := AwaitPasv))
    case AwaitPasv =>
      var st1 := Receive(st, reply);
      (match Checked(reply, 227)
       case Some(e) => Stop(st1, e)
       case None =>
         (match PasvPort(reply)
          case None => Stop(st1, Raised)
          case Some(p) =>
            if !Connects(env.dataReachable, p) then Stop(st1.(dataPort := Some(p)), Exit(1))
            else Send(st1.(dataPort := Some(p)), SizeCommand(s), false).(phase := AwaitSize)))
    case AwaitSize =>
      (match FileSize(reply)
       case None => Stop(st, Raised)
       case Some(n) => Send(st.(fileSize := Some(n)), RetrCommand(s), true).(phase := AwaitRetr))
    case AwaitRetr =>
      var st1 := Receive(st, reply);
      (match Checked(reply, 150)
       case Some(e) => Stop(st1, e)
       case None => st1.(phase := Transfer))
    case Transfer => st
    case Stopped(_) => st
  }

  function Initial(s: Session, env: Environment): Control {
    var st := Control(AwaitBanner, [], [], None, None);
    if Connects(env.serverReachable, s.port) then st else Stop(st, Exit(1))
  }

  /** The session after it has read n replies. */
  function State(s: Session, env: Environment, replies: seq<string>, n: nat): Control {
    if n == 0 then Initial(s, env)
    else Step(s, env, State(s, env, replies, n - 1), ReplyAt(replies, n - 1))
  }

  /** The bytes written to the file: the chunks read before the first empty read. */
  function UntilClosed(chunks: seq<seq<byte>>): seq<byte> {
    if chunks == [] || chunks[0] == [] then [] else chunks[0] + UntilClosed(chunks[1..])
  }

  function Concat(chunks: seq<seq<byte>>): seq<byte> {
    if chunks == [] then [] else chunks[0] + Concat(chunks[1..])
  }

  /** The file holds, in order, every chunk that arrived before the data channel closed. */
  lemma {:induction false} UntilClosedIsConcat(before: seq<seq<byte>>, after: seq<seq<byte>>)
    requires forall i :: 0 <= i < |before| ==> before[i] != []
    ensures UntilClosed(before + [[]] + after) == Concat(before)
  {
    if before != [] {
      assert (before + [[]] + after)[1..] == before[1..] + [[]] + after;
      UntilClosedIsConcat(before[1..], after);
    } else {
      assert (before + [[]] + after)[0] == [];
    }
  }

  /** The phase a successful step leads to. */
  function Next(p: Phase): Phase {
    match p
    case AwaitBanner => AwaitUser
    case AwaitUser => AwaitPass
    case AwaitPass => AwaitPasv
    case AwaitPasv => AwaitSize
    case AwaitSize => AwaitRetr
    case AwaitRetr => Transfer
    case _ => p
  }

  /** Each reply either moves the dialogue one phase on or stops it. */
  lemma StepPhase(s: Session, env: Environment, st: Control, reply: string)
    ensures var p := Step(s, env, st, reply).phase;
      p.Stopped? || p == Next(st.phase)
  {
  }

  /** After the sixth reply the dialogue is over: it transfers or it has stopped. */
  lemma {:induction false} Settles(s: Session, env: Environment, replies: seq<string>, n: nat)
    requires n <= 6
    ensures var p := State(s, env, replies, n).phase;
      p.Stopped? || (n == 6 && p.Transfer?) || (n < 6 && p == Awaiting(n))
  {
    if n > 0 {
      Settles(s, env, replies, n - 1);
      var st := State(s, env, replies, n - 1);
      assert State(s, env, replies, n) == Step(s, env, st, ReplyAt(replies, n - 1));
      StepPhase(s, env, st, ReplyAt(replies, n - 1));
      if !st.phase.Stopped? {
        assert Next(Awaiting(n - 1)) == if n == 6 then Transfer else Awaiting(n);
      }
    }
  }

  /** The whole session. */
  function Run(s: Session, env: Environment, replies: seq<string>, chunks: seq<seq<byte>>): Outcome {
    var st := State(s, env, replies, 6);
    Settles(s, env, replies, 6);
    if st.phase.Stopped? then Outcome(st.phase.end, st.log, st.sent, st.dataPort, st.fileSize, [])
    else if env.fileOpens then Outcome(Exit(0), st.log, st.sent, st.dataPort, st.fileSize, UntilClosed(chunks))
    else Outcome(Exit(7), st.log, st.sent, st.dataPort, st.fileSize, [])
  }

  // ---------------------------------------------------------------------------
  // The session as the program runs it

  /** Receive the k-th reply and compare its code with the expected one. */
  method Expect(replies: seq<string>, k: nat, expected: int) returns (response: string, stop: Option<End>)
    ensures response == ReplyAt(replies, k) && stop == Checked(response, expected)
  {
    response := ReplyAt(replies, k);
    var code := ReplyCode(response);
    if code.None? {
      stop := Some(Raised);
      return;
    }
    var exit := CheckCode(code.value, expected);
    stop := if exit.None? then None else Some(Exit(exit.value));
  }

  /** Stopping is final: later replies change nothing. */
  lemma {:induction false} StoppedStays(s: Session, env: Environment, replies: seq<string>, n: nat, m: nat)
    requires n <= m && State(s, env, replies, n).phase.Stopped?
    ensures State(s, env, replies, m) == State(s, env, replies, n)
  {
    if n < m {
      StoppedStays(s, env, replies, n, m - 1);
      var st := State(s, env, replies, n);
      assert State(s, env, replies, m) == Step(s, env, st, ReplyAt(replies, m - 1));
      StepStopped(s, env, st, ReplyAt(replies, m - 1));
    }
  }

  lemma StepStopped(s: Session, env: Environment, st: Control, reply: string)
    requires st.phase.Stopped?
    ensures Step(s, env, st, reply) == st
  {
  }

  /** The data loop: read chunks until a read comes back empty, appending each to the file. */
  method ReceiveFile(chunks: seq<seq<byte>>) returns (written: seq<byte>)
    ensures written == UntilClosed(chunks)
  {
    written := [];
    var i := 0;
    while true
      invariant 0 <= i <= |chunks|
      invariant written + UntilClosed(chunks[i..]) == UntilClosed(chunks)
      decreases |chunks| - i
    {
      var data := if i < |chunks| then chunks[i] else [];
      if |data| < 1 {
        break;
      }
      assert chunks[i..][1..] == chunks[i + 1..];
      written := written + data;
      i := i + 1;
    }
    assert i < |chunks| ==> chunks[i..][0] == [];
  }

  /** A session that has stopped by its n-th reply ends as it stopped, having written nothing. */
  lemma StoppedRun(s: Session, env: Environment, replies: seq<string>, chunks: seq<seq<byte>>, n: nat)
    requires n <= 6 && State(s, env, replies, n).phase.Stopped?
    ensures var st := State(s, env, replies, n);
      Run(s, env, replies, chunks) == Outcome(st.phase.end, st.log, st.sent, st.dataPort, st.fileSize, [])
  {
    StoppedStays(s, env, replies, n, 6);
  }

  // Each exchange of the dialogue, as the program performs it, in terms of State.

  lemma AfterBanner(s: Session, env: Environment, replies: seq<string>, stop: Option<End>)
    requires Connects(env.serverReachable, s.port)
    requires stop == Checked(ReplyAt(replies, 0), 220)
    ensures stop.Some? ==> State(s, env, replies, 1) == Control(Stopped(stop.value), [], [], None, None)
    ensures stop.None? ==>
      State(s, env, replies, 1) ==
        Control(AwaitUser, [BannerLog(ReplyAt(replies, 0), s.hostname), CommandLog(UserCommand(s))],
                [UserCommand(s)], None, None)
  {
  }

  lemma AfterLogin(s: Session, env: Environment, replies: seq<string>, k: nat, log: seq<string>, sent: seq<string>,
                   stop: Option<End>)
    requires k == 1 || k == 2
    requires State(s, env, replies, k) == Control(Awaiting(k), log, sent, None, None)
    requires stop == Checked(ReplyAt(replies, k), ExpectedCode(k))
    ensures stop.Some? ==>
      State(s, env, replies, k + 1) ==
        Control(Stopped(stop.value), log + [ReplyLog(ReplyAt(replies, k))], sent, None, None)
    ensures stop.None? ==>
      var next := if k == 1 then PassCommand(s) else PasvCommand;
      State(s, env, replies, k + 1) ==
        Control(Awaiting(k + 1), log + [ReplyLog(ReplyAt(replies, k)), CommandLog(next)], sent + [next], None, None)
  {
  }

  lemma AfterPasv(s: Session, env: Environment, replies: seq<string>, log: seq<string>, sent: seq<string>)
    requires State(s, env, replies, 3) == Control(AwaitPasv, log, sent, None, None)
    ensures var r := ReplyAt(replies, 3);
      var log' := log + [ReplyLog(r)];
      State(s, env, replies, 4) ==
        match Checked(r, 227)
        case Some(e) => Control(Stopped(e), log', sent, None, None)
        case None =>
          match PasvPort(r)
          case None => Control(Stopped(Raised), log', sent, None, None)
          case Some(p) =>
            if Connects(env.dataReachable, p) then Control(AwaitSize, log', sent + [SizeCommand(s)], Some(p), None)
            else Control(Stopped(Exit(1)), log', sent, Some(p), None)
  {
  }

  lemma AfterSize(s: Session, env: Environment, replies: seq<string>, log: seq<string>, sent: seq<string>, p: int)
    requires State(s, env, replies, 4) == Control(AwaitSize, log, sent, Some(p), None)
    ensures var r := ReplyAt(replies, 4);
      State(s, env, replies, 5) ==
        match FileSize(r)
        case None => Control(Stopped(Raised), log, sent, Some(p), None)
        case Some(n) =>
          Control(AwaitRetr, log + [CommandLog(RetrCommand(s))], sent + [RetrCommand(s)], Some(p), Some(n))
  {
  }

  lemma AfterRetr(s: Session, env: Environment, replies: seq<string>, log: seq<string>, sent: seq<string>, p: int, n: int)
    requires State(s, env, replies, 5) == Control(AwaitRetr, log, sent, Some(p), Some(n))
    ensures var r := ReplyAt(replies, 5);
      State(s, env, replies, 6) ==
        match Checked(r, 150)
        case Some(e) => Control(Stopped(e), log + [ReplyLog(r)], sent, Some(p), Some(n))
        case None => Control(Transfer, log + [ReplyLog(r)], sent, Some(p), Some(n))
  {
  }

  /** A session that reaches the transfer ends with the file, or with status 7 if it cannot be opened. */
  lemma TransferRun(s: Session, env: Environment, replies: seq<string>, chunks: seq<seq<byte>>)
    requires State(s, env, replies, 6).phase.Transfer?
    ensures var st := State(s, env, replies, 6);
      Run(s, env, replies, chunks) ==
        if env.fileOpens then Outcome(Exit(0), st.log, st.sent, st.dataPort, st.fileSize, UntilClosed(chunks))
        else Outcome(Exit(7), st.log, st.sent, st.dataPort, st.fileSize, [])
  {
  }

  // ---------------------------------------------------------------------------
  // What a session promises

  /** Whether the reply read in phase `p` lets the dialogue go on. */
  predicate Accepts(env: Environment, p: Phase, reply: string) {
    match p
    case AwaitBanner => Checked(reply, 220).None?
    case AwaitUser => Checked(reply, 331).None?
    case AwaitPass => Checked(reply, 230).None?
    case AwaitPasv =>
      Checked(reply, 227).None? && PasvPort(reply).Some? && Connects(env.dataReachable, PasvPort(reply).value)
    case AwaitSize => FileSize(reply).Some?
    case AwaitRetr => Checked(reply, 150).None?
    case _ => false
  }

  /** The control connection opened and the first n replies were all accepted. */
  predicate Accepted(s: Session, env: Environment, replies: seq<string>, n: nat) {
    Connects(env.serverReachable, s.port) &&
    forall k :: 0 <= k < n && k < 6 ==> Accepts(env, Awaiting(k), ReplyAt(replies, k))
  }

  /** The phase reached after n accepted replies. */
  function Reached(n: nat): Phase
    requires n <= 6
  {
    if n < 6 then Awaiting(n) else Transfer
  }

  /** A reply in a waiting phase moves the dialogue on exactly when it is accepted; otherwise it stops it. */
  lemma StepAccepts(s: Session, env: Environment, st: Control, reply: string)
    requires !st.phase.Stopped? && !st.phase.Transfer?
    ensures var p := Step(s, env, st, reply).phase;
      (p == Next(st.phase) <==> Accepts(env, st.phase, reply)) && (p.Stopped? <==> !Accepts(env, st.phase, reply))
  {
  }

  /** The session is in the phase of its n-th step exactly when every earlier reply was accepted. */
  lemma {:induction false} Progress(s: Session, env: Environment, replies: seq<string>, n: nat)
    requires n <= 6
    ensures State(s, env, replies, n).phase == Reached(n) <==> Accepted(s, env, replies, n)
  {
    if n > 0 {
      Progress(s, env, replies, n - 1);
      Settles(s, env, replies, n - 1);
      AcceptedStep(s, env, replies, n);
      var st := State(s, env, replies, n - 1);
      var r := ReplyAt(replies, n - 1);
      assert State(s, env, replies, n) == Step(s, env, st, r);
      if st.phase == Reached(n - 1) {
        StepAccepts(s, env, st, r);
        assert Next(Awaiting(n - 1)) == Reached(n);
      } else {
        StepStopped(s, env, st, r);
      }
    }
  }

  /** Accepting n replies is accepting the first n - 1 and then the n-th. */
  lemma AcceptedStep(s: Session, env: Environment, replies: seq<string>, n: nat)
    requires 0 < n <= 6
    ensures Accepted(s, env, replies, n) <==>
      Accepted(s, env, replies, n - 1) && Accepts(env, Awaiting(n - 1), ReplyAt(replies, n - 1))
  {
  }

  /** How a session ends when something goes wrong: an exception, or a status other than 0. */
  predicate FailureEnd(e: End) {
    e == Raised || e == Exit(1) || e == Exit(2) || e == Exit(3) || e == Exit(4) || e == Exit(7)
  }

  lemma CheckedFails(reply: string, expected: int)
    requires Checked(reply, expected).Some?
    ensures FailureEnd(Checked(reply, expected).value)
  {
    var c := ReplyCode(reply);
    if c.Some? { MismatchExitCodes(c.value, expected); }
  }

  lemma StepFails(s: Session, env: Environment, st: Control, reply: string)
    requires !st.phase.Stopped? && Step(s, env, st, reply).phase.Stopped?
    ensures FailureEnd(Step(s, env, st, reply).phase.end)
  {
    match st.phase
    case AwaitBanner => CheckedFails(reply, 220);
    case AwaitUser => CheckedFails(reply, 331);
    case AwaitPass => CheckedFails(reply, 230);
    case AwaitPasv => if Checked(reply, 227).Some? { CheckedFails(reply, 227); }
    case AwaitSize =>
    case AwaitRetr => CheckedFails(reply, 150);
    case Transfer =>
  }

  /** A session that stops before the transfer never stops with status 0. */
  lemma {:induction false} StopsWithFailure(s: Session, env: Environment, replies: seq<string>, n: nat)
    requires State(s, env, replies, n).phase.Stopped?
    ensures FailureEnd(State(s, env, replies, n).phase.end)
  {
    if n > 0 {
      var st := State(s, env, replies, n - 1);
      var r := ReplyAt(replies, n - 1);
      assert State(s, env, replies, n) == Step(s, env, st, r);
      if st.phase.Stopped? {
        StopsWithFailure(s, env, replies, n - 1);
        StepStopped(s, env, st, r);
      } else {
        StepFails(s, env, st, r);
      }
    }
  }

  /**
   * A session exits with status 0 exactly when the control connection opens, every reply is
   * accepted (the five checked codes, the PASV port numbers with a reachable data port, a number
   * in the SIZE reply) and the local file opens; every other session fails.
   */
  lemma SessionSucceedsIff(s: Session, env: Environment, replies: seq<string>, chunks: seq<seq<byte>>)
    ensures Run(s, env, replies, chunks).end == Exit(0) <==> Accepted(s, env, replies, 6) && env.fileOpens
    ensures Run(s, env, replies, chunks).end != Exit(0) ==> FailureEnd(Run(s, env, replies, chunks).end)
  {
    Progress(s, env, replies, 6);
    Settles(s, env, replies, 6);
    if State(s, env, replies, 6).phase.Stopped? {
      StopsWithFailure(s, env, replies, 6);
    }
  }

  /** In a phase that checks a code, a reply whose check fails stops the session with that check's end. */
  lemma StepChecked(s: Session, env: Environment, st: Control, reply: string, k: nat)
    requires k < 6 && k != 4 && st.phase == Awaiting(k) && Checked(reply, ExpectedCode(k)).Some?
    ensures Step(s, env, st, reply).phase == Stopped(Checked(reply, ExpectedCode(k)).value)
    ensures Step(s, env, st, reply).sent == st.sent
  {
  }

  /**
   * The first reply that is not accepted decides the exit status: a mismatched code exits with
   * the status CheckCode gives, no command after the one it answers is sent, and nothing is written.
   */
  lemma MismatchStops(s: Session, env: Environment, replies: seq<string>, chunks: seq<seq<byte>>, k: nat, c: int)
    requires k < 6 && k != 4 && Accepted(s, env, replies, k)
    requires ReplyCode(ReplyAt(replies, k)) == Some(c) && c != ExpectedCode(k)
    ensures Run(s, env, replies, chunks).end == Exit(CheckCode(c, ExpectedCode(k)).value)
    ensures Run(s, env, replies, chunks).sent == Commands(s)[..k]
    ensures Run(s, env, replies, chunks).written == []
  {
    StopsAt(s, env, replies, chunks, k);
  }

  /** A reply that is not a number where a code is expected ends the session with an exception. */
  lemma NonNumericRaises(s: Session, env: Environment, replies: seq<string>, chunks: seq<seq<byte>>, k: nat)
    requires k < 6 && k != 4 && Accepted(s, env, replies, k)
    requires ReplyCode(ReplyAt(replies, k)).None?
    ensures Run(s, env, replies, chunks).end == Raised
  {
    StopsAt(s, env, replies, chunks, k);
  }

  lemma StopsAt(s: Session, env: Environment, replies: seq<string>, chunks: seq<seq<byte>>, k: nat)
    requires k < 6 && k != 4 && Accepted(s, env, replies, k)
    requires Checked(ReplyAt(replies, k), ExpectedCode(k)).Some?
    ensures Run(s, env, replies, chunks).end == Checked(ReplyAt(replies, k), ExpectedCode(k)).value
    ensures Run(s, env, replies, chunks).sent == Commands(s)[..k]
    ensures Run(s, env, replies, chunks).written == []
  {
    Progress(s, env, replies, k);
    SentIsPrefix(s, env, replies, k);
    var st := State(s, env, replies, k);
    var r := ReplyAt(replies, k);
    assert State(s, env, replies, k + 1) == Step(s, env, st, r);
    StepChecked(s, env, st, r, k);
    StoppedRun(s, env, replies, chunks, k + 1);
  }

  lemma AcceptedLogin(s: Session, env: Environment, replies: seq<string>)
    requires Accepted(s, env, replies, 3)
    ensures Checked(ReplyAt(replies, 0), 220).None? && Checked(ReplyAt(replies, 1), 331).None?
    ensures Checked(ReplyAt(replies, 2), 230).None?
  {
    assert Accepts(env, Awaiting(0), ReplyAt(replies, 0));
    assert Accepts(env, Awaiting(1), ReplyAt(replies, 1));
    assert Accepts(env, Awaiting(2), ReplyAt(replies, 2));
  }

  /** The log of a session after a successful login: the banner line and two exchanges, then PASV. */
  function LoginLog(s: Session, replies: seq<string>): seq<string> {
    [BannerLog(ReplyAt(replies, 0), s.hostname), CommandLog(UserCommand(s))] +
    [ReplyLog(ReplyAt(replies, 1)), CommandLog(PassCommand(s))] +
    [ReplyLog(ReplyAt(replies, 2)), CommandLog(PasvCommand)]
  }

  /** The log of a successful session. */
  function SuccessLog(s: Session, replies: seq<string>): seq<string> {
    LoginLog(s, replies) + [ReplyLog(ReplyAt(replies, 3))] + [CommandLog(RetrCommand(s))] +
    [ReplyLog(ReplyAt(replies, 5))]
  }

  /** After a successful login the session has logged and sent the login dialogue and PASV. */
  lemma LoginState(s: Session, env: Environment, replies: seq<string>)
    requires Connects(env.serverReachable, s.port)
    requires Checked(ReplyAt(replies, 0), 220).None? && Checked(ReplyAt(replies, 1), 331).None?
    requires Checked(ReplyAt(replies, 2), 230).None?
    ensures State(s, env, replies, 3) ==
      Control(AwaitPasv, LoginLog(s, replies), [UserCommand(s)] + [PassCommand(s)] + [PasvCommand], None, None)
  {
    AfterBanner(s, env, replies, None);
    var log := [BannerLog(ReplyAt(replies, 0), s.hostname), CommandLog(UserCommand(s))];
    var sent := [UserCommand(s)];
    AfterLogin(s, env, replies, 1, log, sent, None);
    log, sent := log + [ReplyLog(ReplyAt(replies, 1)), CommandLog(PassCommand(s))], sent + [PassCommand(s)];
    AfterLogin(s, env, replies, 2, log, sent, None);
  }

  lemma AcceptedAt(s: Session, env: Environment, replies: seq<string>, n: nat, k: nat)
    requires Accepted(s, env, replies, n) && k < n && k < 6
    ensures Accepts(env, Awaiting(k), ReplyAt(replies, k))
  {
  }

  /** What the acceptance of the six replies says about each of them. */
  lemma AcceptedReplies(s: Session, env: Environment, replies: seq<string>)
    requires Accepted(s, env, replies, 6)
    ensures Checked(ReplyAt(replies, 0), 220).None? && Checked(ReplyAt(replies, 1), 331).None?
    ensures Checked(ReplyAt(replies, 2), 230).None? && Checked(ReplyAt(replies, 3), 227).None?
    ensures PasvPort(ReplyAt(replies, 3)).Some? && Connects(env.dataReachable, PasvPort(ReplyAt(replies, 3)).value)
    ensures FileSize(ReplyAt(replies, 4)).Some? && Checked(ReplyAt(replies, 5), 150).None?
  {
    AcceptedLogin(s, env, replies);
    AcceptedAt(s, env, replies, 6, 3);
    AcceptsPasv(env, ReplyAt(replies, 3));
    AcceptedAt(s, env, replies, 6, 4);
    AcceptsSize(env, ReplyAt(replies, 4));
    AcceptedAt(s, env, replies, 6, 5);
    AcceptsRetr(env, ReplyAt(replies, 5));
  }

  lemma AcceptsSize(env: Environment, reply: string)
    requires Accepts(env, Awaiting(4), reply)
    ensures FileSize(reply).Some?
  {
  }

  lemma AcceptsRetr(env: Environment, reply: string)
    requires Accepts(env, Awaiting(5), reply)
    ensures Checked(reply, 150).None?
  {
  }

  lemma AcceptsPasv(env: Environment, reply: string)
    requires Accepts(env, Awaiting(3), reply)
    ensures Checked(reply, 227).None? && PasvPort(reply).Some? && Connects(env.dataReachable, PasvPort(reply).value)
  {
  }

  /** After all six replies are accepted the session is ready to transfer. */
  lemma AcceptedState(s: Session, env: Environment, replies: seq<string>)
    requires Connects(env.serverReachable, s.port)
    requires Checked(ReplyAt(replies, 0), 220).None? && Checked(ReplyAt(replies, 1), 331).None?
    requires Checked(ReplyAt(replies, 2), 230).None? && Checked(ReplyAt(replies, 3), 227).None?
    requires PasvPort(ReplyAt(replies, 3)).Some? && Connects(env.dataReachable, PasvPort(ReplyAt(replies, 3)).value)
    requires FileSize(ReplyAt(replies, 4)).Some? && Checked(ReplyAt(replies, 5), 150).None?
    ensures State(s, env, replies, 6) ==
      Control(Transfer, SuccessLog(s, replies), [UserCommand(s)] + [PassCommand(s)] + [PasvCommand] +
              [SizeCommand(s)] + [RetrCommand(s)], PasvPort(ReplyAt(replies, 3)), FileSize(ReplyAt(replies, 4)))
  {
    LoginState(s, env, replies);
    var log := LoginLog(s, replies);
    var sent := [UserCommand(s)] + [PassCommand(s)] + [PasvCommand];
    AfterPasv(s, env, replies, log, sent);
    var p := PasvPort(ReplyAt(replies, 3)).value;
    log, sent := log + [ReplyLog(ReplyAt(replies, 3))], sent + [SizeCommand(s)];
    AfterSize(s, env, replies, log, sent, p);
    var n := FileSize(ReplyAt(replies, 4)).value;
    log, sent := log + [CommandLog(RetrCommand(s))], sent + [RetrCommand(s)];
    AfterRetr(s, env, replies, log, sent, p, n);
  }

  /** The log of a successful session, line by line. */
  lemma SuccessLogLines(s: Session, replies: seq<string>)
    ensures SuccessLog(s, replies) ==
      [BannerLog(ReplyAt(replies, 0), s.hostname), CommandLog(UserCommand(s)), ReplyLog(ReplyAt(replies, 1)),
       CommandLog(PassCommand(s)), ReplyLog(ReplyAt(replies, 2)), CommandLog(PasvCommand),
       ReplyLog(ReplyAt(replies, 3)), CommandLog(RetrCommand(s)), ReplyLog(ReplyAt(replies, 5))]
  {
  }

  lemma CommandsInOrder(s: Session)
    ensures [UserCommand(s)] + [PassCommand(s)] + [PasvCommand] + [SizeCommand(s)] + [RetrCommand(s)] == Commands(s)
  {
  }

  /**
   * A successful session logs, in order, the banner line, USER, PASS, PASV and RETR with the
   * replies to the last four (SIZE and its reply are not logged), sends all five commands,
   * uses the port of the PASV reply and the size of the SIZE reply, and writes every chunk
   * that arrived before the data connection closed.
   */
  lemma SuccessTranscript(s: Session, env: Environment, replies: seq<string>, chunks: seq<seq<byte>>)
    requires Accepted(s, env, replies, 6) && env.fileOpens
    ensures var o := Run(s, env, replies, chunks);
      o.end == Exit(0) && o.sent == Commands(s) && o.written == UntilClosed(chunks) &&
      o.dataPort == PasvPort(ReplyAt(replies, 3)) && o.fileSize == FileSize(ReplyAt(replies, 4))
    ensures Run(s, env, replies, chunks).log ==
      [BannerLog(ReplyAt(replies, 0), s.hostname), CommandLog(UserCommand(s)), ReplyLog(ReplyAt(replies, 1)),
       CommandLog(PassCommand(s)), ReplyLog(ReplyAt(replies, 2)), CommandLog(PasvCommand),
       ReplyLog(ReplyAt(replies, 3)), CommandLog(RetrCommand(s)), ReplyLog(ReplyAt(replies, 5))]
  {
    AcceptedReplies(s, env, replies);
    AcceptedState(s, env, replies);
    TransferRun(s, env, replies, chunks);
    SuccessLogLines(s, replies);
    CommandsInOrder(s);
  }

  /** Whatever happens, the commands sent are the first commands of the session, in order. */
  lemma {:induction false} SentIsPrefix(s: Session, env: Environment, replies: seq<string>, n: nat)
    ensures var st := State(s, env, replies, n);
      |st.sent| <= 5 && st.sent == Commands(s)[..|st.sent|]
    ensures var st := State(s, env, replies, n);
      !st.phase.Stopped? ==> |st.sent| == SentBy(st.phase)
  {
    if n > 0 {
      SentIsPrefix(s, env, replies, n - 1);
      var st := State(s, env, replies, n - 1);
      var r := ReplyAt(replies, n - 1);
      assert State(s, env, replies, n) == Step(s, env, st, r);
      SendsNext(s, env, st, r);
    }
  }

  /** The number of commands sent on reaching a phase. */
  function SentBy(p: Phase): nat {
    match p
    case AwaitBanner => 0
    case AwaitUser => 1
    case AwaitPass => 2
    case AwaitPasv => 3
    case AwaitSize => 4
    case _ => 5
  }

  lemma SendsNext(s: Session, env: Environment, st: Control, reply: string)
    requires |st.sent| <= 5 && st.sent == Commands(s)[..|st.sent|]
    requires !st.phase.Stopped? ==> |st.sent| == SentBy(st.phase)
    ensures var st' := Step(s, env, st, reply);
      |st'.sent| <= 5 && st'.sent == Commands(s)[..|st'.sent|] &&
      (!st'.phase.Stopped? ==> |st'.sent| == SentBy(st'.phase))
  {
    var st' := Step(s, env, st, reply);
    if |st'.sent| != |st.sent| {
      assert |st'.sent| == |st.sent| + 1 && st'.sent == st.sent + [Commands(s)[|st.sent|]];
      assert Commands(s)[..|st'.sent|] == Commands(s)[..|st.sent|] + [Commands(s)[|st.sent|]];
    }
  }

  /** Greeting and login: the banner, USER and PASS; after a successful login the session sends PASV. */
  method Login(s: Session, env: Environment, replies: seq<string>)
    returns (log: seq<string>, sent: seq<string>, stop: Option<End>)
    requires Connects(env.serverReachable, s.port)
    ensures var st := State(s, env, replies, 3);
      st == if stop.Some? then Control(Stopped(stop.value), log, sent, None, None)
            else Control(AwaitPasv, log + [CommandLog(PasvCommand)], sent + [PasvCommand], None, None)
  {
    log := [];
    sent := [];

    // Banner
    var response;
    response, stop := Expect(replies, 0, 220);
    AfterBanner(s, env, replies, stop);
    if stop.Some? {
      StoppedStays(s, env, replies, 1, 3);
      return;
    }
    log := log + [BannerLog(response, s.hostname)];

    // USER
    var request := UserCommand(s);
    sent := sent + [request];
    log := log + [CommandLog(request)];
    response, stop := Expect(replies, 1, 331);
    AfterLogin(s, env, replies, 1, log, sent, stop);
    log := log + [ReplyLog(response)];
    if stop.Some? {
      StoppedStays(s, env, replies, 2, 3);
      return;
    }

    // PASS
    request := PassCommand(s);
    sent := sent + [request];
    log := log + [CommandLog(request)];
    response, stop := Expect(replies, 2, 230);
    AfterLogin(s, env, replies, 2, log, sent, stop);
    log := log + [ReplyLog(response)];
  }

  /** One session, step by step as the client runs it. */
  method HandleSession(s: Session, env: Environment, replies: seq<string>, chunks: seq<seq<byte>>)
    returns (res: Outcome)
    ensures res == Run(s, env, replies, chunks)
  {
    if !Connects(env.serverReachable, s.port) {
      StoppedRun(s, env, replies, chunks, 0);
      return Outcome(Exit(1), [], [], None, None, []);
    }
    var log, sent, stop := Login(s, env, replies);
    if stop.Some? {
      StoppedRun(s, env, replies, chunks, 3);
      return Outcome(stop.value, log, sent, None, None, []);
    }

    // PASV
    var request := PasvCommand;
    sent := sent + [request];
    log := log + [CommandLog(request)];
    var response;
    response, stop := Expect(replies, 3, 227);
    AfterPasv(s, env, replies, log, sent);
    log := log + [ReplyLog(response)];
    if stop.Some? {
      StoppedRun(s, env, replies, chunks, 4);
      return Outcome(stop.value, log, sent, None, None, []);
    }
    var port := PasvPort(response);
    if port.None? {
      StoppedRun(s, env, replies, chunks, 4);
      return Outcome(Raised, log, sent, None, None, []);
    }
    var dataPort := port.value;
    if !Connects(env.dataReachable, dataPort) {
      StoppedRun(s, env, replies, chunks, 4);
      return Outcome(Exit(1), log, sent, Some(dataPort), None, []);
    }

    // SIZE: sent, but neither it nor its reply is logged
    sent := sent + [SizeCommand(s)];
    response := ReplyAt(replies, 4);
    AfterSize(s, env, replies, log, sent, dataPort);
    var size := FileSize(response);
    if size.None? {
      StoppedRun(s, env, replies, chunks, 5);
      return Outcome(Raised, log, sent, Some(dataPort), None, []);
    }
    var fsize := size.value;

    // RETR
    request := RetrCommand(s);
    sent := sent + [request];
    log := log + [CommandLog(request)];
    response, stop := Expect(replies, 5, 150);
    AfterRetr(s, env, replies, log, sent, dataPort, fsize);
    log := log + [ReplyLog(response)];
    if stop.Some? {
      StoppedRun(s, env, replies, chunks, 6);
      return Outcome(stop.value, log, sent, Some(dataPort), Some(fsize), []);
    }

    // Transfer
    TransferRun(s, env, replies, chunks);
    if !env.fileOpens {
      return Outcome(Exit(7), log, sent, Some(dataPort), Some(fsize), []);
    }
    var written := ReceiveFile(chunks);
    res := Outcome(Exit(0), log, sent, Some(dataPort), Some(fsize), written);
  }
}
