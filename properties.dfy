/** What sensorConnect, the checks and mainLoop promise, stated in terms of
    the script the world starts from. */
module Properties {
  import opened CText
  import opened Protocol
  import Menu

  // ------------------------------------------------------------- buffers

  /** After recv the buffer reads, as a C string, exactly like the bytes. */
  lemma CStringOfLoaded(bytes: seq<char>)
    requires |bytes| < BUFF_SIZE
    ensures CString(Loaded(bytes)) == CString(bytes)
  {
    var t := CString(bytes);
    var z := Zeros(BUFF_SIZE - |bytes|);
    assert z[0] == NUL;
    if |t| < |bytes| {
      var rest := bytes[|t|..];
      assert bytes == t + rest;
      assert Loaded(bytes) == t + (rest + z);
      BeforeOfTerminated(t, NUL, rest + z);
    } else {
      BeforeOfTerminated(bytes, NUL, z);
    }
  }

  /** A text without NUL is its own C string. */
  lemma CStringOfText(text: seq<char>)
    requires NUL !in text
    ensures CString(text) == text
  {
    assert text + [] == text;
    BeforeOfTerminated(text, NUL, []);
  }

  // ----------------------------------------------------------- the port

  /** The third word of the dispatch server's reply, if any, fits sensorPort
      together with its NUL. */
  predicate PortFits(bytes: seq<char>) {
    var word := NthWord(CString(bytes), 2);
    word.None? || |word.value| < PORT_SIZE
  }

  /** The port sensorConnect asks for after the dispatch server sent bytes:
      their third word or, when there is none, what sensorPort held before. */
  function RedirectPort(w: World, bytes: seq<char>): seq<char> {
    match NthWord(CString(bytes), 2)
    case Some(word) => word
    case None => CString(w.sensorPort)
  }

  /** The port scan fails exactly on a long third word, and otherwise leaves
      the port connectToHost is given in sensorPort. */
  lemma ScanPortReads(w: World)
    requires Wf(w)
    ensures ScanPort(w).Some? <==> PortFits(w.buff)
    ensures ScanPort(w).Some? ==> CString(ScanPort(w).value.sensorPort) == RedirectPort(w, w.buff)
  {
    var s := CString(w.buff);
    match NthWord(s, 2)
    case None =>
    case Some(tok) =>
      if |tok| < PORT_SIZE {
        NthWordNoNul(s, 0, 2);
        var rest := [NUL] + w.sensorPort[|tok| + 1..];
        assert tok + [NUL] + w.sensorPort[|tok| + 1..] == tok + rest;
        CStringOfTerminated(tok, rest);
      }
  }

  /** Words separated by single spaces: the third one is the port. */
  lemma RedirectOfWords(bytes: seq<char>, words: seq<seq<char>>, tail: seq<char>)
    requires bytes == Unwords(words) + tail && NUL !in bytes
    requires 2 < |words| && (forall i :: 0 <= i < |words| ==> IsWord(words[i])) && AllSpace(tail)
    ensures NthWord(CString(bytes), 2) == Some(words[2])
  {
    CStringOfText(bytes);
    assert bytes == [] + Unwords(words) + tail;
    NthWordOfUnwords([], words, tail, 2);
  }

  // ------------------------------------------------------- sensorConnect

  /** The dispatch server takes the AUTH line and answers it with bytes. */
  predicate ServerAnswers(w: World, fd: int) {
    SendSucceeds(w, fd) && NextReply(w, fd).Data?
  }

  /** The whole script of a successful sensorConnect: both AUTH lines are
      delivered and answered, the port fits, the sensor host accepts the
      connection and its answer contains "SUCCESS\n". */
  predicate Handshake(w: World, fd: int) {
    ServerAnswers(w, fd) && PortFits(NextReply(w, fd).bytes)
    && w.net.connects != [] && w.net.connects[0]
    && |w.net.sends| > 1 && w.net.sends[1]
    && |w.net.replies| > 1 && w.net.replies[1].Data?
    && Contains(CString(w.net.replies[1].bytes), SUCCESS)
  }

  /** The sensor host accepts the connection, takes the AUTH line and
      answers with bytes containing "SUCCESS\n". */
  predicate LoginScript(w: World) {
    w.net.connects != [] && w.net.connects[0]
    && w.net.sends != [] && w.net.sends[0]
    && w.net.replies != [] && w.net.replies[0].Data?
    && Contains(CString(w.net.replies[0].bytes), SUCCESS)
  }

  /** The second half of sensorConnect first connects to the sensor host on
      the port in sensorPort; when that fails the program ends with status 1. */
  lemma SensorLoginOpens(w: World)
    requires Wf(w)
    ensures var (r, out) := SensorLogin(w);
      if w.net.connects != [] && w.net.connects[0] then
        |w.trace| < |r.trace| && r.trace[|w.trace|] == Opened(w.net.nextFd, SENSOR_HOST, CString(w.sensorPort))
      else out == Halted(Exit(1)) && r.trace == w.trace && r.live == w.live
  {
    var (w1, sensor) := Connect(w, SENSOR_HOST, CString(w.sensorPort));
    if sensor.Some? {
      var w2 := Transmit(w1, sensor.value, SENSOR_AUTH);
      PrefixTrans(w1.trace, w2.trace, SensorLogin(w).0.trace);
      assert w1.trace[|w.trace|] == Opened(w.net.nextFd, SENSOR_HOST, CString(w.sensorPort));
    }
  }

  /** The sensor login returns the new socket exactly when its script
      succeeds, and then it has logged the connection and the AUTH line and
      cleared buff. */
  lemma SensorLoginSucceeds(w: World)
    requires Wf(w)
    ensures var (r, out) := SensorLogin(w);
      (out == Returned(w.net.nextFd) <==> LoginScript(w))
      && (w.net.connects != [] && w.net.connects[0] ==>
            out == (if LoginScript(w) then Returned(w.net.nextFd) else Returned(FAILED)))
      && (LoginScript(w) ==>
            r.buff == Zeros(BUFF_SIZE) && r.live == w.live + {w.net.nextFd}
            && r.trace == w.trace + [Opened(w.net.nextFd, SENSOR_HOST, CString(w.sensorPort)), Sent(w.net.nextFd, SENSOR_AUTH)])
  {
    var (w1, sensor) := Connect(w, SENSOR_HOST, CString(w.sensorPort));
    if sensor.Some? {
      var n := w.net.nextFd;
      assert n in w1.live && w1.net.sends == w.net.sends && w1.net.replies == w.net.replies;
      var w2 := Transmit(w1, n, SENSOR_AUTH);
      if w2.sentBytes != -1 {
        var w3 := Receive(w2, n);
        if w3.recvBytes > 0 {
          CStringOfLoaded(w.net.replies[0].bytes);
        }
      }
    }
  }

  /** "SUCCESS\n" is looked for anywhere in the sensor host's answer: text
      before and after it does not matter. */
  lemma SensorLoginOfEmbeddedSuccess(w: World, before: seq<char>, after: seq<char>)
    requires Wf(w) && w.net.connects != [] && w.net.connects[0]
    requires w.net.sends != [] && w.net.sends[0]
    requires w.net.replies != [] && w.net.replies[0].Data? && w.net.replies[0].bytes == before + SUCCESS + after
    requires NUL !in before + SUCCESS + after
    ensures SensorLogin(w).1 == Returned(w.net.nextFd)
  {
    CStringOfText(before + SUCCESS + after);
    ContainsSurrounded(before, SUCCESS, after);
    SensorLoginSucceeds(w);
  }

  /** sensorConnect's first message is the AUTH line on the dispatch
      socket; when that send fails it returns 1 having sent and opened
      nothing. */
  lemma SensorConnectAuthFirst(w: World, fd: int)
    requires Wf(w)
    ensures var (r, out) := SensorConnect(w, fd);
      if SendSucceeds(w, fd) then |w.trace| < |r.trace| && r.trace[|w.trace|] == Sent(fd, SERVER_AUTH)
      else out == Returned(FAILED) && r.trace == w.trace && r.net.connects == w.net.connects && r.live == w.live
  {
    var w1 := Transmit(w, fd, SERVER_AUTH);
    if SendSucceeds(w, fd) {
      SensorConnectAfterAuth(w, fd);
      assert w1.trace[|w.trace|] == Sent(fd, SERVER_AUTH);
    }
  }

  /** Everything sensorConnect does after the AUTH line only adds to the log. */
  lemma SensorConnectAfterAuth(w: World, fd: int)
    requires Wf(w)
    ensures Transmit(w, fd, SERVER_AUTH).trace <= SensorConnect(w, fd).0.trace
  {
  }

  lemma PrefixTrans<T>(a: seq<T>, b: seq<T>, c: seq<T>)
    requires a <= b && b <= c
    ensures a <= c
  {
    assert a == c[..|a|];
  }

  /** Without an answer from the dispatch server (a failed send, a recv
      error or a closed connection) sensorConnect returns 1 and never
      contacts the sensor host. */
  lemma SensorConnectWithoutAnswer(w: World, fd: int)
    requires Wf(w) && !ServerAnswers(w, fd)
    ensures var (r, out) := SensorConnect(w, fd);
      out == Returned(FAILED) && r.net.connects == w.net.connects && r.live == w.live
      && r.trace == w.trace + (if SendSucceeds(w, fd) then [Sent(fd, SERVER_AUTH)] else [])
  {
  }

  /** The world sensorConnect hands to its second half once the dispatch
      server has answered and the port fits: the AUTH line is logged, one
      send and one reply are used, and sensorPort holds the redirect port. */
  lemma SensorConnectMidway(w: World, fd: int)
    requires Wf(w) && ServerAnswers(w, fd) && PortFits(NextReply(w, fd).bytes)
    ensures var w2 := Receive(Transmit(w, fd, SERVER_AUTH), fd);
      ScanPort(w2).Some?
      && var w3 := ScanPort(w2).value;
      w3.trace == w.trace + [Sent(fd, SERVER_AUTH)] && w3.live == w.live
      && w3.net == w.net.(sends := w.net.sends[1..], replies := w.net.replies[1..])
      && CString(w3.sensorPort) == RedirectPort(w, NextReply(w, fd).bytes)
      && SensorConnect(w, fd) == SensorLogin(w3)
  {
    var bytes := NextReply(w, fd).bytes;
    var w1 := Transmit(w, fd, SERVER_AUTH);
    var w2 := Receive(w1, fd);
    assert w2.buff == Loaded(bytes) && w2.sensorPort == w.sensorPort;
    CStringOfLoaded(bytes);
    ScanPortReads(w2);
  }

  /** Once the dispatch server has answered, sensorConnect halts on a long
      third word, ends the program when the sensor host cannot be reached,
      and otherwise opens the sensor host on the redirect port. */
  lemma SensorConnectPort(w: World, fd: int)
    requires Wf(w) && ServerAnswers(w, fd)
    ensures var (r, out) := SensorConnect(w, fd);
      var bytes := NextReply(w, fd).bytes;
      if !PortFits(bytes) then out == Halted(Undefined) && r.net.connects == w.net.connects && r.live == w.live
      else if w.net.connects == [] || !w.net.connects[0] then out == Halted(Exit(1)) && r.live == w.live
      else |w.trace| + 1 < |r.trace| && r.trace[|w.trace| + 1] == Opened(w.net.nextFd, SENSOR_HOST, RedirectPort(w, bytes))
  {
    var bytes := NextReply(w, fd).bytes;
    if PortFits(bytes) {
      SensorConnectMidway(w, fd);
      var w3 := ScanPort(Receive(Transmit(w, fd, SERVER_AUTH), fd)).value;
      SensorLoginOpens(w3);
    } else {
      var w2 := Receive(Transmit(w, fd, SERVER_AUTH), fd);
      assert w2.buff == Loaded(bytes);
      CStringOfLoaded(bytes);
      ScanPortReads(w2);
    }
  }

  /** Past the dispatch server, the handshake script is the login script of
      the world sensorConnect hands over. */
  lemma HandshakeIsLogin(w: World, fd: int)
    requires Wf(w) && ServerAnswers(w, fd) && PortFits(NextReply(w, fd).bytes)
    ensures var w2 := Receive(Transmit(w, fd, SERVER_AUTH), fd);
      ScanPort(w2).Some? && (Handshake(w, fd) <==> LoginScript(ScanPort(w2).value))
  {
    SensorConnectMidway(w, fd);
  }

  /** sensorConnect returns the sensor socket exactly when the whole
      handshake succeeds, and 1 or a halt otherwise; once the sensor host
      is connected, every failure returns 1. */
  lemma SensorConnectSucceeds(w: World, fd: int)
    requires Wf(w)
    ensures var out := SensorConnect(w, fd).1;
      (out == Returned(w.net.nextFd) <==> Handshake(w, fd))
      && (!Handshake(w, fd) ==> out == Returned(FAILED) || out.Halted?)
      && (ServerAnswers(w, fd) && PortFits(NextReply(w, fd).bytes) && w.net.connects != [] && w.net.connects[0] ==>
            out == (if Handshake(w, fd) then Returned(w.net.nextFd) else Returned(FAILED)))
  {
    if !ServerAnswers(w, fd) {
      SensorConnectWithoutAnswer(w, fd);
    } else if !PortFits(NextReply(w, fd).bytes) {
      SensorConnectPort(w, fd);
    } else {
      SensorConnectMidway(w, fd);
      HandshakeIsLogin(w, fd);
      SensorLoginSucceeds(ScanPort(Receive(Transmit(w, fd, SERVER_AUTH), fd)).value);
    }
  }

  /** After a successful handshake both AUTH lines and the sensor
      connection, on the redirect port, are logged, and buff is clear. */
  lemma SensorConnectSuccess(w: World, fd: int)
    requires Wf(w) && Handshake(w, fd)
    ensures var r := SensorConnect(w, fd).0;
      r.buff == Zeros(BUFF_SIZE) && r.live == w.live + {w.net.nextFd}
      && r.trace == w.trace + [Sent(fd, SERVER_AUTH),
                               Opened(w.net.nextFd, SENSOR_HOST, RedirectPort(w, NextReply(w, fd).bytes)),
                               Sent(w.net.nextFd, SENSOR_AUTH)]
  {
    SensorConnectMidway(w, fd);
    HandshakeIsLogin(w, fd);
    var w3 := ScanPort(Receive(Transmit(w, fd, SERVER_AUTH), fd)).value;
    SensorLoginSucceeds(w3);
    var n := w.net.nextFd;
    var port := RedirectPort(w, NextReply(w, fd).bytes);
    assert w3.trace + [Opened(n, SENSOR_HOST, port), Sent(n, SENSOR_AUTH)]
      == w.trace + [Sent(fd, SERVER_AUTH), Opened(n, SENSOR_HOST, port), Sent(n, SENSOR_AUTH)];
  }

  /** The dispatch server's reply "OK ready 5099 go\n" makes sscanf write a
      four-digit port and its NUL into the four-byte sensorPort. */
  lemma SensorConnectOfFourDigitPort(w: World, fd: int)
    requires Wf(w) && SendSucceeds(w, fd) && NextReply(w, fd) == Data("OK ready 5099 go\n")
    ensures SensorConnect(w, fd).1 == Halted(Undefined)
  {
    FourDigitReplyPort();
    SensorConnectPort(w, fd);
  }

  /** The third word of "OK ready 5099 go\n" is "5099". */
  lemma FourDigitReplyPort()
    ensures NthWord(CString("OK ready 5099 go\n"), 2) == Some("5099")
  {
    var words := ["OK", "ready", "5099", "go"];
    FourDigitReplyWords();
    RedirectOfWords("OK ready 5099 go\n", words, "\n");
  }

  /** "OK ready 5099 go\n" is four words and a newline. */
  lemma FourDigitReplyWords()
    ensures var words := ["OK", "ready", "5099", "go"];
      "OK ready 5099 go\n" == Unwords(words) + "\n" && NUL !in "OK ready 5099 go\n"
      && (forall i :: 0 <= i < |words| ==> IsWord(words[i])) && AllSpace("\n")
  {
    var words := ["OK", "ready", "5099", "go"];
    assert Unwords(words[3..]) == "go";
    assert Unwords(words[2..]) == "5099 go";
    assert Unwords(words[1..]) == "ready 5099 go";
    assert IsWord(words[0]) && IsWord(words[1]) && IsWord(words[2]) && IsWord(words[3]);
  }

  /** A reply of space-separated words with a port of up to three
      characters in third place sends the client to that port. */
  lemma SensorConnectOfRedirect(w: World, fd: int, words: seq<seq<char>>, tail: seq<char>)
    requires Wf(w) && ServerAnswers(w, fd)
    requires NextReply(w, fd).bytes == Unwords(words) + tail && NUL !in NextReply(w, fd).bytes
    requires 2 < |words| && (forall i :: 0 <= i < |words| ==> IsWord(words[i])) && AllSpace(tail)
    requires |words[2]| < PORT_SIZE && w.net.connects != [] && w.net.connects[0]
    ensures var r := SensorConnect(w, fd).0;
      |w.trace| + 1 < |r.trace| && r.trace[|w.trace| + 1] == Opened(w.net.nextFd, SENSOR_HOST, words[2])
  {
    RedirectOfWords(NextReply(w, fd).bytes, words, tail);
    SensorConnectPort(w, fd);
  }

  // -------------------------------------------------------------- checks

  /** The check takes its reading and CLOSE is delivered. */
  predicate CloseDelivered(w: World, fd: int) {
    SendSucceeds(w, fd) && NextReply(w, fd).Data? && |w.net.sends| > 1 && w.net.sends[1]
  }

  /** What the sensor host answers CLOSE with. */
  function AckReply(w: World): Reply {
    if |w.net.replies| > 1 then w.net.replies[1] else RecvFailed
  }

  /** The close phase accepts the acknowledgement exactly when CLOSE is
      delivered and the answer contains "BYE\n"; buff is then cleared. */
  lemma CloseSessionAcknowledged(w: World, fd: int)
    requires Wf(w)
    ensures var (r, report) := CloseSession(w, fd);
      (report == Acknowledged <==> SendSucceeds(w, fd) && NextReply(w, fd).Data? && Contains(CString(NextReply(w, fd).bytes), BYE))
      && (report == Acknowledged ==> r.buff == Zeros(BUFF_SIZE))
  {
    if SendSucceeds(w, fd) && NextReply(w, fd).Data? {
      CStringOfLoaded(NextReply(w, fd).bytes);
    }
  }

  /** In the close phase only a recv error is an error: a closed connection
      leaves an empty buffer, which is reported as a bad answer. */
  lemma CloseSessionFailures(w: World, fd: int)
    requires Wf(w) && SendSucceeds(w, fd)
    ensures var report := CloseSession(w, fd).1;
      (report == AckRecvError <==> NextReply(w, fd).RecvFailed?)
      && (NextReply(w, fd).PeerClosed? ==> report == BadAck)
  {
    assert CString(Zeros(BUFF_SIZE)) == [] by {
      assert Zeros(BUFF_SIZE) == [] + Zeros(BUFF_SIZE);
      BeforeOfTerminated([], NUL, Zeros(BUFF_SIZE));
    }
  }

  /** The world a check closes its session from, once the reading arrived:
      the command is logged, one send and one reply are used. */
  lemma CheckMidway(w: World, fd: int, kind: Kind)
    requires Wf(w) && SendSucceeds(w, fd) && NextReply(w, fd).Data?
    ensures var w3 := Scanned(Receive(Transmit(w, fd, Command(kind)), fd), kind);
      Check(w, fd, kind) == CloseSession(w3, fd)
      && w3.trace == w.trace + [Sent(fd, Command(kind))] && w3.live == w.live
      && w3.net == w.net.(sends := w.net.sends[1..], replies := w.net.replies[1..])
      && w3 == Scanned(Receive(Transmit(w, fd, Command(kind)), fd), kind)
  {
  }

  /** A check sends at most its command and then CLOSE, both on fd, and
      opens and closes nothing. */
  lemma CheckSends(w: World, fd: int, kind: Kind)
    requires Wf(w)
    ensures var r := Check(w, fd, kind).0;
      r.trace[|w.trace|..] <= [Sent(fd, Command(kind)), Sent(fd, CLOSE)]
      && r.net.connects == w.net.connects && r.net.nextFd == w.net.nextFd && r.live == w.live
  {
    if SendSucceeds(w, fd) && NextReply(w, fd).Data? {
      CheckMidway(w, fd, kind);
    }
  }

  /** A check first sends its command; when that send fails it returns
      with the readings, the log and the replies as they were. */
  lemma CheckCommandFirst(w: World, fd: int, kind: Kind)
    requires Wf(w)
    ensures var (r, report) := Check(w, fd, kind);
      if SendSucceeds(w, fd) then |w.trace| < |r.trace| && r.trace[|w.trace|] == Sent(fd, Command(kind))
      else report == CommandSendError && r.trace == w.trace && SameReadings(r, w) && r.net.replies == w.net.replies
  {
    CheckSends(w, fd, kind);
    var r := Check(w, fd, kind).0;
    if SendSucceeds(w, fd) {
      assert r.trace[|w.trace|..][0] == r.trace[|w.trace|];
    }
  }

  /** A recv error or a closed connection instead of the reading: the check
      returns without sending CLOSE and without touching the readings. */
  lemma CheckWithoutReply(w: World, fd: int, kind: Kind)
    requires Wf(w) && SendSucceeds(w, fd) && !NextReply(w, fd).Data?
    ensures var (r, report) := Check(w, fd, kind);
      report == (if NextReply(w, fd).PeerClosed? then ReplyClosed else ReplyRecvError)
      && r.trace == w.trace + [Sent(fd, Command(kind))] && SameReadings(r, w)
  {
  }

  /** sscanf stores each number it finds: the time into currentTime, the
      value into the kind's reading, and leaves the other readings alone. */
  lemma ScannedReads(w: World, kind: Kind)
    requires Wf(w)
    ensures var r := Scanned(w, kind);
      var (t, v) := ScanTwoInts(CString(w.buff));
      r.currentTime == (if t.Some? then t.value else w.currentTime)
      && Value(r, kind) == (if v.Some? then v.value else Value(w, kind))
      && (forall other :: other != kind ==> Value(r, other) == Value(w, other))
  {
  }

  /** A reply is scanned into currentTime and the kind's reading, each only
      when its number is there, and the other readings stay. The readings
      stand however the close phase ends. */
  lemma CheckReading(w: World, fd: int, kind: Kind)
    requires Wf(w) && SendSucceeds(w, fd) && NextReply(w, fd).Data?
    ensures var r := Check(w, fd, kind).0;
      var (t, v) := ScanTwoInts(CString(NextReply(w, fd).bytes));
      r.currentTime == (if t.Some? then t.value else w.currentTime)
      && Value(r, kind) == (if v.Some? then v.value else Value(w, kind))
      && (forall other :: other != kind ==> Value(r, other) == Value(w, other))
  {
    CheckMidway(w, fd, kind);
    ReplyReads(w, fd, kind);
  }

  /** The readings the reply leaves, before the close phase. */
  lemma ReplyReads(w: World, fd: int, kind: Kind)
    requires Wf(w) && SendSucceeds(w, fd) && NextReply(w, fd).Data?
    ensures var r := Scanned(Receive(Transmit(w, fd, Command(kind)), fd), kind);
      var (t, v) := ScanTwoInts(CString(NextReply(w, fd).bytes));
      r.currentTime == (if t.Some? then t.value else w.currentTime)
      && Value(r, kind) == (if v.Some? then v.value else Value(w, kind))
      && (forall other :: other != kind ==> Value(r, other) == Value(w, other))
  {
    var bytes := NextReply(w, fd).bytes;
    var w2 := Receive(Transmit(w, fd, Command(kind)), fd);
    assert w2.buff == Loaded(bytes) && SameReadings(w2, w);
    CStringOfLoaded(bytes);
    ScannedReads(w2, kind);
  }

  /** After a reply the check sends CLOSE on the same socket, whenever the
      script delivers it. */
  lemma CheckSendsClose(w: World, fd: int, kind: Kind)
    requires Wf(w) && SendSucceeds(w, fd) && NextReply(w, fd).Data?
    ensures Check(w, fd, kind).0.trace
      == w.trace + [Sent(fd, Command(kind))] + (if |w.net.sends| > 1 && w.net.sends[1] then [Sent(fd, CLOSE)] else [])
  {
    CheckMidway(w, fd, kind);
    var w3 := Scanned(Receive(Transmit(w, fd, Command(kind)), fd), kind);
    assert SendSucceeds(w3, fd) <==> |w.net.sends| > 1 && w.net.sends[1];
  }

  /** "<time> <value> ..." sets currentTime and the kind's reading to those
      numbers. */
  lemma CheckOfLine(w: World, fd: int, kind: Kind, time: int, value: int, rest: seq<char>)
    requires Wf(w) && SendSucceeds(w, fd) && NextReply(w, fd).Data?
    requires NextReply(w, fd).bytes == IntText(time) + " " + IntText(value) + rest
    requires NUL !in NextReply(w, fd).bytes
    requires rest != [] ==> !IsDigit(rest[0])
    ensures Check(w, fd, kind).0.currentTime == time && Value(Check(w, fd, kind).0, kind) == value
  {
    CheckReading(w, fd, kind);
    CStringOfText(NextReply(w, fd).bytes);
    ScanTwoIntsOfLine(time, value, rest);
  }

  /** The check accepts the acknowledgement exactly when it contains
      "BYE\n", and then buff is cleared. */
  lemma CheckAcknowledged(w: World, fd: int, kind: Kind)
    requires Wf(w)
    ensures var (r, report) := Check(w, fd, kind);
      (report == Acknowledged <==> CloseDelivered(w, fd) && AckReply(w).Data? && Contains(CString(AckReply(w).bytes), BYE))
      && (report == Acknowledged ==> r.buff == Zeros(BUFF_SIZE))
  {
    if SendSucceeds(w, fd) && NextReply(w, fd).Data? {
      CheckMidway(w, fd, kind);
      var w3 := Scanned(Receive(Transmit(w, fd, Command(kind)), fd), kind);
      CloseSessionAcknowledged(w3, fd);
      assert NextReply(w3, fd) == AckReply(w);
    }
  }

  /** In a check's close phase only a recv error is an error: a closed
      connection is reported as a bad answer. */
  lemma CheckAckFailures(w: World, fd: int, kind: Kind)
    requires Wf(w) && CloseDelivered(w, fd)
    ensures var report := Check(w, fd, kind).1;
      (report == AckRecvError <==> AckReply(w).RecvFailed?)
      && (AckReply(w).PeerClosed? ==> report == BadAck)
  {
    CheckMidway(w, fd, kind);
    var w3 := Scanned(Receive(Transmit(w, fd, Command(kind)), fd), kind);
    CloseSessionFailures(w3, fd);
    assert NextReply(w3, fd) == AckReply(w);
  }

  /** A check on the descriptor sensorConnect returns on failure (1,
      standard output, not a socket) sends nothing and changes no reading. */
  lemma CheckOnFailedDescriptor(w: World, kind: Kind)
    requires Wf(w)
    ensures var (r, report) := Check(w, FAILED, kind);
      report == CommandSendError && r.trace == w.trace && r.net == w.net && r.live == w.live && SameReadings(r, w)
  {
  }

  // ------------------------------------------------------------ mainLoop

  /** 1, 2 and 3 run the check of that kind on the sensor descriptor. */
  lemma DispatchQuery(w: World, serverFd: int, sensorFd: int, text: Stored, kind: Kind)
    requires Wf(w) && Menu.Selection(text) == Number(kind)
    ensures Dispatch(w, serverFd, sensorFd, Line(text)) == (Check(w, sensorFd, kind).0, None)
  {
  }

  /** 4 closes the dispatch socket and exits with status 0. */
  lemma DispatchQuit(w: World, serverFd: int, sensorFd: int, text: Stored)
    requires Wf(w) && Menu.Selection(text) == 4
    ensures var (r, halt) := Dispatch(w, serverFd, sensorFd, Line(text));
      halt == Some(Exit(0)) && r.trace == w.trace + [Closed(serverFd)] && serverFd !in r.live && r.net == w.net
  {
  }

  /** Any other selection, -1 for input that is not a number included,
      changes nothing and the loop goes on. */
  lemma DispatchInvalid(w: World, serverFd: int, sensorFd: int, text: Stored)
    requires Wf(w) && !(1 <= Menu.Selection(text) <= 4)
    ensures Dispatch(w, serverFd, sensorFd, Line(text)) == (w, None)
  {
  }

  /** Typing 3 and Enter runs the wind check. */
  lemma DispatchOfTyped(w: World, serverFd: int, sensorFd: int)
    requires Wf(w)
    ensures Dispatch(w, serverFd, sensorFd, Line("3\n")) == (Check(w, sensorFd, Wind).0, None)
  {
    assert Decimal(3) == "3";
    Menu.SelectionOfTyped(3);
  }

  /** The prompt and the switch open no connection. */
  lemma DispatchOpensNothing(w: World, serverFd: int, sensorFd: int, input: Input)
    requires Wf(w)
    ensures var r := Dispatch(w, serverFd, sensorFd, input).0;
      r.net.connects == w.net.connects && r.net.nextFd == w.net.nextFd
      && forall i :: |w.trace| <= i < |r.trace| ==> !r.trace[i].Opened?
  {
    var r := Dispatch(w, serverFd, sensorFd, input).0;
    if input.Line? && ActionOf(Menu.Selection(input.text)).Query? {
      var kind := ActionOf(Menu.Selection(input.text)).kind;
      CheckSends(w, sensorFd, kind);
      forall i | |w.trace| <= i < |r.trace|
        ensures !r.trace[i].Opened?
      {
        assert r.trace[i] == r.trace[|w.trace|..][i - |w.trace|];
      }
    }
  }

  /** Every iteration starts by opening a new dispatch connection and
      sending it the AUTH line; when that connection fails the program
      ends with status 1. */
  lemma IterationOpensServerFirst(w: World, input: Input)
    requires Wf(w)
    ensures var (r, halt) := Iteration(w, input);
      if w.net.connects != [] && w.net.connects[0] then
        |w.trace| < |r.trace| && r.trace[|w.trace|] == Opened(w.net.nextFd, SERVER_HOST, SERVER_PORT)
        && (w.net.sends != [] && w.net.sends[0] ==>
              |w.trace| + 1 < |r.trace| && r.trace[|w.trace| + 1] == Sent(w.net.nextFd, SERVER_AUTH))
      else halt == Some(Exit(1)) && r.trace == w.trace
  {
    if w.net.connects != [] && w.net.connects[0] {
      var (w1, server) := Connect(w, SERVER_HOST, SERVER_PORT);
      assert w1.trace == w.trace + [Opened(w.net.nextFd, SERVER_HOST, SERVER_PORT)];
      SensorConnectAuthFirst(w1, w.net.nextFd);
      var w2 := SensorConnect(w1, w.net.nextFd).0;
      assert w1.trace <= w2.trace;
      var r := Iteration(w, input).0;
      assert w2.trace <= r.trace;
      PrefixTrans(w2.trace[..|w1.trace| + (if w.net.sends != [] && w.net.sends[0] then 1 else 0)], w2.trace, r.trace);
    }
  }

  /** The descriptors of a pass: the dispatch socket is the one just opened,
      and the sensor descriptor is what sensorConnect returns on it, the next
      socket exactly when the handshake succeeds and 1 otherwise. A failed
      dispatch connection ends the program with status 1. */
  lemma PrepareDescriptors(w: World)
    requires Wf(w)
    ensures var (p, fds, halt) := Prepare(w);
      var (w1, server) := Connect(w, SERVER_HOST, SERVER_PORT);
      if w.net.connects == [] || !w.net.connects[0] then halt == Some(Exit(1)) && fds.None?
      else
        p == SensorConnect(w1, w.net.nextFd).0
        && (halt.None? ==>
              fds.value.0 == w.net.nextFd
              && (fds.value.1 == w.net.nextFd + 1 <==> Handshake(w1, w.net.nextFd))
              && (!Handshake(w1, w.net.nextFd) ==> fds.value.1 == FAILED))
  {
    if w.net.connects != [] && w.net.connects[0] {
      var (w1, server) := Connect(w, SERVER_HOST, SERVER_PORT);
      SensorConnectSucceeds(w1, w.net.nextFd);
    }
  }

  /** All connections of an iteration are made before the prompt: whatever
      the input, the iteration continues the world Prepare leaves and makes
      no further connection attempt. */
  lemma IterationConnectsBeforePrompt(w: World, input: Input)
    requires Wf(w)
    ensures var p := Prepare(w).0;
      var r := Iteration(w, input).0;
      p.trace <= r.trace && r.net.connects == p.net.connects
      && forall i :: |p.trace| <= i < |r.trace| ==> !r.trace[i].Opened?
  {
    var (p, fds, halt) := Prepare(w);
    if halt.None? {
      DispatchOpensNothing(p, fds.value.0, fds.value.1, input);
    }
  }

  /** After a failed sensorConnect, a chosen check sends nothing and the
      readings stay as they were. */
  lemma IterationAfterFailedHandshake(w: World, text: Stored)
    requires Wf(w)
    requires Prepare(w).1.Some? && Prepare(w).1.value.1 == FAILED
    requires ActionOf(Menu.Selection(text)).Query?
    ensures var p := Prepare(w).0;
      var r := Iteration(w, Line(text)).0;
      r.trace == p.trace && r.net == p.net && SameReadings(r, p)
  {
    var p := Prepare(w).0;
    CheckOnFailedDescriptor(p, ActionOf(Menu.Selection(text)).kind);
  }
}
