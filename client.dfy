/** client.c's globals as the fields of one object and its functions as
    methods that update them in place. Each client step is proved to leave
    the object in exactly the state that the Protocol function its
    postcondition names computes from the state before. */
module Client {
  import opened CText
  import opened Protocol
  import Menu

  class Client {
    /** The shared buffer every send and recv goes through. */
    const buff: array<char>
    var len: int
    var sentBytes: int
    var recvBytes: int
    /** The port string sscanf copies out of the dispatch server's reply. */
    const sensorPort: array<char>
    var currentTime: int
    var currentTemp: int
    var currentHum: int
    var currentWind: int
    /** What the peers and the operating system will do next. */
    var net: Net
    /** The open sockets. */
    var live: set<int>
    /** Everything the peers have observed so far. */
    ghost var trace: seq<Event>

    /** The object as a World value. */
    ghost function State(): World
      reads this, buff, sensorPort
    {
      World(buff[..], len, sentBytes, recvBytes, sensorPort[..],
        currentTime, currentTemp, currentHum, currentWind, net, live, trace)
    }

    ghost predicate Valid()
      reads this, buff, sensorPort
    {
      buff.Length == BUFF_SIZE && sensorPort.Length == PORT_SIZE && Wf(State())
    }

    /** Program start: static storage is zero, nothing is open. */
    constructor (sends: seq<bool>, replies: seq<Reply>, connects: seq<bool>)
      ensures Valid() && State() == Initial(sends, replies, connects)
    {
      buff := new char[BUFF_SIZE](_ => NUL);
      sensorPort := new char[PORT_SIZE](_ => NUL);
      len, sentBytes, recvBytes := 0, 0, 0;
      currentTime, currentTemp, currentHum, currentWind := 0, 0, 0, 0;
      net := Net(sends, replies, connects, FIRST_FD);
      live := {};
      trace := [];
      new;
      assert buff[..] == Zeros(BUFF_SIZE);
      assert sensorPort[..] == Zeros(PORT_SIZE);
      assert State() == Initial(sends, replies, connects);
    }

    // ------------------------------------------------ library and system

    /** memset(buff, 0, BUFF_SIZE). */
    method ClearBuff()
      modifies buff
      ensures buff[..] == Zeros(buff.Length)
    {
      var i := 0;
      while i < buff.Length
        invariant 0 <= i <= buff.Length
        invariant forall k :: 0 <= k < i ==> buff[k] == NUL
      {
        buff[i] := NUL;
        i := i + 1;
      }
      assert forall k :: 0 <= k < buff.Length ==> buff[..][k] == Zeros(buff.Length)[k];
    }

    /** strcpy(buff, text): the text and its NUL. */
    method Copy(text: seq<char>)
      requires |text| < buff.Length
      modifies buff
      ensures buff[..] == text + [NUL] + old(buff[..])[|text| + 1..]
    {
      var i := 0;
      while i < |text|
        invariant 0 <= i <= |text|
        invariant forall k :: 0 <= k < i ==> buff[k] == text[k]
        invariant forall k :: i <= k < buff.Length ==> buff[k] == old(buff[k])
      {
        buff[i] := text[i];
        i := i + 1;
      }
      buff[i] := NUL;
      assert forall k :: 0 <= k < buff.Length ==> buff[..][k] == (text + [NUL] + old(buff[..])[|text| + 1..])[k];
    }

    /** strlen(buff). */
    method Length() returns (n: int)
      requires NUL in buff[..]
      ensures n == |CString(buff[..])|
    {
      var i := 0;
      while i < buff.Length && buff[i] != NUL
        invariant 0 <= i <= buff.Length
        invariant forall k :: 0 <= k < i ==> buff[k] != NUL
      {
        i := i + 1;
      }
      assert buff[..] == buff[..i] + buff[i..];
      assert NUL !in buff[..i] by {
        assert forall k :: 0 <= k < i ==> buff[..i][k] == buff[k];
      }
      BeforeOfTerminated(buff[..i], NUL, buff[i..]);
      n := i;
    }

    /** send(fd, buff, n, 0): the first n bytes go to the peer when fd is an
        open socket and the script lets the send through. */
    method Send(fd: int, n: int) returns (sent: int)
      requires 0 <= n <= buff.Length
      modifies this
      ensures sent == (if SendSucceeds(old(State()), fd) then n else -1)
      ensures State() == old(State()).(net := NetAfterSend(old(State()), fd),
        trace := if SendSucceeds(old(State()), fd) then old(trace) + [Sent(fd, buff[..n])] else old(trace))
    {
      var ok := fd in live && net.sends != [] && net.sends[0];
      if fd in live && net.sends != [] {
        net := net.(sends := net.sends[1..]);
      }
      if ok {
        trace := trace + [Sent(fd, buff[..n])];
        sent := n;
      } else {
        sent := -1;
      }
    }

    /** recv(fd, buff, BUFF_SIZE, 0): the bytes that arrive are written to the
        front of buff; 0 when the peer closed, -1 on an error. */
    method Recv(fd: int) returns (n: int)
      requires Valid()
      modifies this, buff
      ensures var reply := NextReply(old(State()), fd);
        n == (match reply case RecvFailed => -1 case PeerClosed => 0 case Data(bytes) => |bytes|)
        && State() == old(State()).(
          buff := if reply.Data? then reply.bytes + old(buff[..])[|reply.bytes|..] else old(buff[..]),
          net := NetAfterRecv(old(State()), fd))
    {
      var reply := if fd in live && net.replies != [] then net.replies[0] else RecvFailed;
      if fd in live && net.replies != [] {
        net := net.(replies := net.replies[1..]);
      }
      match reply
      case RecvFailed => n := -1;
      case PeerClosed => n := 0;
      case Data(bytes) =>
        var i := 0;
        while i < |bytes|
          modifies buff
          invariant 0 <= i <= |bytes|
          invariant forall k :: 0 <= k < i ==> buff[k] == bytes[k]
          invariant forall k :: i <= k < buff.Length ==> buff[k] == old(buff[k])
        {
          buff[i] := bytes[i];
          i := i + 1;
        }
        assert buff[..] == bytes + old(buff[..])[|bytes|..] by {
          assert forall k :: 0 <= k < buff.Length ==> buff[..][k] == (bytes + old(buff[..])[|bytes|..])[k];
        }
        n := |bytes|;
    }

    /** connectToHost(host, port): a new socket on the next descriptor, or
        None where the program would exit(1). */
    method ConnectToHost(host: seq<char>, port: seq<char>) returns (fd: Option<int>)
      requires Valid()
      modifies this
      ensures Valid() && (State(), fd) == Connect(old(State()), host, port)
    {
      if net.connects == [] {
        fd := None;
      } else if !net.connects[0] {
        net := net.(connects := net.connects[1..]);
        fd := None;
      } else {
        var n := net.nextFd;
        net := net.(connects := net.connects[1..], nextFd := n + 1);
        live := live + {n};
        trace := trace + [Opened(n, host, port)];
        fd := Some(n);
      }
    }

    /** close(fd). */
    method Close(fd: int)
      requires Valid()
      modifies this
      ensures Valid() && State() == CloseFd(old(State()), fd)
    {
      live := live - {fd};
      trace := trace + [Closed(fd)];
    }

    // ------------------------------------------------------ client steps

    /** The four lines before every send: memset, strcpy, len = strlen,
        sentBytes = send. */
    method SendText(fd: int, text: seq<char>)
      requires Valid() && |text| < BUFF_SIZE && NUL !in text
      modifies this, buff
      ensures Valid() && State() == Transmit(old(State()), fd, text)
    {
      ClearBuff();
      Copy(text);
      ghost var loaded := buff[..];
      assert loaded == Loaded(text) by {
        assert Zeros(BUFF_SIZE)[|text| + 1..] == Zeros(BUFF_SIZE - |text| - 1);
        assert [NUL] + Zeros(BUFF_SIZE - |text| - 1) == Zeros(BUFF_SIZE - |text|);
      }
      assert loaded[|text|] == NUL;
      CStringOfTerminated(text, Zeros(BUFF_SIZE - |text|));
      len := Length();
      assert loaded[..len] == text;
      sentBytes := Send(fd, len);
    }

    /** memset(buff, 0, BUFF_SIZE) and recvBytes = recv. */
    method ReceiveInto(fd: int)
      requires Valid()
      modifies this, buff
      ensures Valid() && State() == Receive(old(State()), fd)
    {
      ClearBuff();
      assert Valid();
      recvBytes := Recv(fd);
      match NextReply(old(State()), fd)
      case RecvFailed =>
      case PeerClosed =>
      case Data(bytes) =>
        assert Zeros(BUFF_SIZE)[|bytes|..] == Zeros(BUFF_SIZE - |bytes|);
    }

    /** sscanf(buff, "%*s %*s %s %*s", sensorPort): false where the third
        word would not fit, and sensorPort is then left alone. */
    method ScanPortInto() returns (fits: bool)
      requires Valid()
      modifies sensorPort
      ensures fits == ScanPort(old(State())).Some?
      ensures fits ==> Valid() && State() == ScanPort(old(State())).value
      ensures !fits ==> State() == old(State())
    {
      match NthWord(CString(buff[..]), 2)
      case None =>
        fits := true;
      case Some(tok) =>
        if |tok| < PORT_SIZE {
          var i := 0;
          while i < |tok|
            invariant 0 <= i <= |tok|
            invariant forall k :: 0 <= k < i ==> sensorPort[k] == tok[k]
            invariant forall k :: i <= k < sensorPort.Length ==> sensorPort[k] == old(sensorPort[k])
          {
            sensorPort[i] := tok[i];
            i := i + 1;
          }
          sensorPort[i] := NUL;
          assert sensorPort[..] == tok + [NUL] + old(sensorPort[..])[|tok| + 1..] by {
            assert forall k :: 0 <= k < sensorPort.Length ==>
              sensorPort[..][k] == (tok + [NUL] + old(sensorPort[..])[|tok| + 1..])[k];
          }
          assert sensorPort[|tok|] == NUL;
          fits := true;
        } else {
          fits := false;
        }
    }

    /** sscanf(buff, "%ld %d ...", &currentTime, &<the kind's global>). */
    method ScanReading(kind: Kind)
      requires Valid()
      modifies this
      ensures Valid() && State() == Scanned(old(State()), kind)
    {
      var (t, v) := ScanTwoInts(CString(buff[..]));
      if t.Some? {
        currentTime := t.value;
      }
      if v.Some? {
        match kind
        case Temperature => currentTemp := v.value;
        case Humidity => currentHum := v.value;
        case Wind => currentWind := v.value;
      }
    }

    // ---------------------------------------------------- client functions

    /** sensorConnect(server_fd). */
    method SensorConnect(serverFd: int) returns (out: Outcome)
      requires Valid()
      modifies this, buff, sensorPort
      ensures Valid() && (State(), out) == Protocol.SensorConnect(old(State()), serverFd)
    {
      SendText(serverFd, SERVER_AUTH);
      if sentBytes == -1 {
        return Returned(FAILED);
      }
      ReceiveInto(serverFd);
      if recvBytes == -1 || recvBytes == 0 {
        return Returned(FAILED);
      }
      var fits := ScanPortInto();
      if !fits {
        return Halted(Undefined);
      }
      out := SensorLogin();
    }

    /** The second half of sensorConnect, from the connect to the sensor host. */
    method SensorLogin() returns (out: Outcome)
      requires Valid()
      modifies this, buff
      ensures Valid() && (State(), out) == Protocol.SensorLogin(old(State()))
    {
      var sensor := ConnectToHost(SENSOR_HOST, CString(sensorPort[..]));
      if sensor.None? {
        return Halted(Exit(1));
      }
      SendText(sensor.value, SENSOR_AUTH);
      if sentBytes == -1 {
        return Returned(FAILED);
      }
      ReceiveInto(sensor.value);
      if recvBytes == -1 || recvBytes == 0 {
        return Returned(FAILED);
      }
      if !Contains(CString(buff[..]), SUCCESS) {
        return Returned(FAILED);
      }
      ClearBuff();
      return Returned(sensor.value);
    }

    /** tempCheck, humidityCheck and windCheck. */
    method Check(fd: int, kind: Kind) returns (report: Report)
      requires Valid()
      modifies this, buff
      ensures Valid() && (State(), report) == Protocol.Check(old(State()), fd, kind)
    {
      SendText(fd, Command(kind));
      if sentBytes == -1 {
        return CommandSendError;
      }
      ReceiveInto(fd);
      if recvBytes == -1 {
        return ReplyRecvError;
      } else if recvBytes == 0 {
        return ReplyClosed;
      }
      ScanReading(kind);
      report := CloseSession(fd);
    }

    /** The second half of each check, from the CLOSE line on. */
    method CloseSession(fd: int) returns (report: Report)
      requires Valid()
      modifies this, buff
      ensures Valid() && (State(), report) == Protocol.CloseSession(old(State()), fd)
    {
      SendText(fd, CLOSE);
      if sentBytes == -1 {
        return CloseSendError;
      }
      ReceiveInto(fd);
      if recvBytes == -1 {
        return AckRecvError;
      }
      if !Contains(CString(buff[..]), BYE) {
        return BadAck;
      }
      ClearBuff();
      return Acknowledged;
    }

    /** The top of mainLoop's body: connect to the dispatch server, then
        sensorConnect. */
    method Prepare() returns (fds: Option<(int, int)>, halt: Option<Halt>)
      requires Valid()
      modifies this, buff, sensorPort
      ensures Valid() && (State(), fds, halt) == Protocol.Prepare(old(State()))
    {
      var server := ConnectToHost(SERVER_HOST, SERVER_PORT);
      if server.None? {
        return None, Some(Exit(1));
      }
      var out := SensorConnect(server.value);
      match out
      case Halted(h) =>
        fds, halt := None, Some(h);
      case Returned(sensor) =>
        fds, halt := Some((server.value, sensor)), None;
    }

    /** The rest of mainLoop's body: prompt's result picks a check, quit or
        nothing. */
    method Dispatch(serverFd: int, sensorFd: int, input: Input) returns (halt: Option<Halt>)
      requires Valid()
      modifies this, buff
      ensures Valid() && (State(), halt) == Protocol.Dispatch(old(State()), serverFd, sensorFd, input)
    {
      match input
      case AtEof =>
        halt := Some(Exit(0));
      case ReadError =>
        halt := Some(Exit(1));
      case Line(text) =>
        var selection := Menu.Selection(text);
        match ActionOf(selection)
        case Query(kind) =>
          var _ := Check(sensorFd, kind);
          halt := None;
        case Quit =>
          Close(serverFd);
          halt := Some(Exit(0));
        case Invalid =>
          halt := None;
    }

    /** mainLoop: the i-th pass reads the i-th input; the loop ends only where
        the program does. */
    method MainLoop(inputs: seq<Input>) returns (halt: Halt)
      requires Valid()
      modifies this, buff, sensorPort
      ensures Valid() && (State(), halt) == Protocol.Run(old(State()), inputs)
    {
      var i := 0;
      while true
        invariant 0 <= i <= |inputs| && Valid()
        invariant Protocol.Run(old(State()), inputs) == Protocol.Run(State(), inputs[i..])
        decreases |inputs| - i
      {
        ghost var start := State();
        var input := if i < |inputs| then inputs[i] else AtEof;
        var fds, stop := Prepare();
        if stop.None? {
          stop := Dispatch(fds.value.0, fds.value.1, input);
        }
        assert (State(), stop) == Iteration(start, input);
        if stop.Some? {
          return stop.value;
        }
        assert inputs[i..][1..] == inputs[i + 1..];
        i := i + 1;
      }
    }
  }
}
