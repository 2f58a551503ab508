/** The client's protocol as transitions of a World value: the globals of
    client.c together with the operating system's view of the network.
    Every send, recv and connection attempt takes its outcome from a script
    fixed in advance, so each operation is a function of the world it
    starts from. */
module Protocol {
  import opened CText
  import Menu

  const BUFF_SIZE: nat := 1024
  const PORT_SIZE: nat := 4
  const SERVER_HOST := "hopper.sandiego.edu"
  const SERVER_PORT := "7030"
  const SENSOR_HOST := "weatherstation.sandiego.edu"
  const SERVER_AUTH := "AUTH password123\n"
  const SENSOR_AUTH := "AUTH sensorpass321\n"
  const SUCCESS := "SUCCESS\n"
  const CLOSE := "CLOSE\n"
  const BYE := "BYE\n"
  /** What sensorConnect returns on every failure. */
  const FAILED: int := 1
  /** The first descriptor a socket gets: 0, 1 and 2 are the standard streams. */
  const FIRST_FD: int := 3

  /** The three readings the sensor host serves. */
  datatype Kind = Temperature | Humidity | Wind

  /** The command each check sends. */
  function Command(kind: Kind): seq<char> {
    match kind
    case Temperature => "AIR TEMPERATURE\n"
    case Humidity => "RELATIVE HUMIDITY\n"
    case Wind => "WIND SPEED\n"
  }

  /** The bytes of one non-empty recv; a full buffer would leave buff
      without a terminating NUL (see README). */
  type Chunk = s: seq<char> | 0 < |s| < BUFF_SIZE witness "x"

  /** What the characters fgets stores can be: at most nine of them. */
  type Stored = s: seq<char> | |s| < Menu.INPUT_SIZE

  /** The outcome of one recv call. */
  datatype Reply = RecvFailed | PeerClosed | Data(bytes: Chunk)

  /** The script: outcomes of the coming sends (delivered or -1), recvs and
      connection attempts (connected or fatal), and the next descriptor. */
  datatype Net = Net(sends: seq<bool>, replies: seq<Reply>, connects: seq<bool>, nextFd: int)

  /** What the peers observe, in order. */
  datatype Event = Opened(fd: int, host: seq<char>, port: seq<char>) | Sent(fd: int, text: seq<char>) | Closed(fd: int)

  /** The globals of client.c (sensor_fd excepted: it is never assigned),
      the script, the open sockets and the log of events. */
  datatype World = World(
    buff: seq<char>, len: int, sentBytes: int, recvBytes: int,
    sensorPort: seq<char>,
    currentTime: int, currentTemp: int, currentHum: int, currentWind: int,
    net: Net, live: set<int>, trace: seq<Event>)

  /** The buffers have their declared sizes, sensorPort holds a C string and
      every open socket got its descriptor from the counter. */
  predicate Wf(w: World) {
    |w.buff| == BUFF_SIZE && |w.sensorPort| == PORT_SIZE && NUL in w.sensorPort
    && FIRST_FD <= w.net.nextFd
    && forall fd :: fd in w.live ==> FIRST_FD <= fd < w.net.nextFd
  }

  function Zeros(n: nat): (z: seq<char>)
    ensures |z| == n
  {
    seq(n, _ => NUL)
  }

  /** The globals at program start: static storage is zero. */
  function Initial(sends: seq<bool>, replies: seq<Reply>, connects: seq<bool>): (w: World)
    ensures Wf(w) && w.trace == [] && w.live == {}
  {
    assert Zeros(PORT_SIZE)[0] == NUL;
    World(Zeros(BUFF_SIZE), 0, 0, 0, Zeros(PORT_SIZE), 0, 0, 0, 0,
      Net(sends, replies, connects, FIRST_FD), {}, [])
  }

  /** The reading of one kind. */
  function Value(w: World, kind: Kind): int {
    match kind
    case Temperature => w.currentTemp
    case Humidity => w.currentHum
    case Wind => w.currentWind
  }

  /** No reading differs between the two worlds. */
  predicate SameReadings(a: World, b: World) {
    a.currentTime == b.currentTime && a.currentTemp == b.currentTemp
    && a.currentHum == b.currentHum && a.currentWind == b.currentWind
  }

  // ------------------------------------------------------------ the calls

  /** connectToHost: name resolution, socket and connect either succeed,
      giving the next descriptor, or end the program with exit(1). */
  function Connect(w: World, host: seq<char>, port: seq<char>): (res: (World, Option<int>))
    requires Wf(w)
    ensures Wf(res.0) && w.trace <= res.0.trace && SameReadings(res.0, w)
    ensures res.1.Some? ==> res.1.value == w.net.nextFd && res.1.value !in w.live && res.1.value in res.0.live
  {
    if w.net.connects == [] then (w, None)
    else if !w.net.connects[0] then (w.(net := w.net.(connects := w.net.connects[1..])), None)
    else
      var fd := w.net.nextFd;
      (w.(net := w.net.(connects := w.net.connects[1..], nextFd := fd + 1),
          live := w.live + {fd}, trace := w.trace + [Opened(fd, host, port)]),
       Some(fd))
  }

  /** The buffer after memset(buff, 0, BUFF_SIZE) and strcpy(buff, text). */
  function Loaded(text: seq<char>): (b: seq<char>)
    requires |text| < BUFF_SIZE
    ensures |b| == BUFF_SIZE
  {
    text + Zeros(BUFF_SIZE - |text|)
  }

  /** send on fd delivers the whole buffer: fd is an open socket and the
      script says so. */
  predicate SendSucceeds(w: World, fd: int) {
    fd in w.live && w.net.sends != [] && w.net.sends[0]
  }

  /** memset, strcpy, strlen and send of one message: the buffer holds the
      text, len its length, sentBytes the length or -1. A send on a
      descriptor that is not an open socket fails without using the script. */
  function Transmit(w: World, fd: int, text: seq<char>): (r: World)
    requires Wf(w) && |text| < BUFF_SIZE
    ensures Wf(r) && w.trace <= r.trace && SameReadings(r, w)
  {
    var ok := SendSucceeds(w, fd);
    w.(buff := Loaded(text), len := |text|,
       sentBytes := if ok then |text| else -1,
       net := NetAfterSend(w, fd),
       trace := if ok then w.trace + [Sent(fd, text)] else w.trace)
  }

  /** The script after a send on fd: a socket's send uses one outcome. */
  function NetAfterSend(w: World, fd: int): Net {
    if fd in w.live && w.net.sends != [] then w.net.(sends := w.net.sends[1..]) else w.net
  }

  /** The script after a recv on fd: a socket's recv uses one reply. */
  function NetAfterRecv(w: World, fd: int): Net {
    if fd in w.live && w.net.replies != [] then w.net.(replies := w.net.replies[1..]) else w.net
  }

  /** What the next recv on fd returns. */
  function NextReply(w: World, fd: int): Reply {
    if fd in w.live && w.net.replies != [] then w.net.replies[0] else RecvFailed
  }

  /** memset and recv: the buffer holds what arrived, recvBytes its length,
      0 when the peer closed, -1 on an error. */
  function Receive(w: World, fd: int): (r: World)
    requires Wf(w)
    ensures Wf(r) && r.trace == w.trace && SameReadings(r, w)
  {
    var net := NetAfterRecv(w, fd);
    match NextReply(w, fd)
    case RecvFailed => w.(buff := Zeros(BUFF_SIZE), recvBytes := -1, net := net)
    case PeerClosed => w.(buff := Zeros(BUFF_SIZE), recvBytes := 0, net := net)
    case Data(bytes) => w.(buff := Loaded(bytes), recvBytes := |bytes|, net := net)
  }

  /** sscanf(buff, "%*s %*s %s %*s", sensorPort): the third word is copied
      with its NUL into the four-byte sensorPort, which is left as it was
      when there is no third word. A word of four or more characters
      writes past the array: None. */
  function ScanPort(w: World): (r: Option<World>)
    requires Wf(w)
    ensures r.Some? ==> Wf(r.value) && r.value.trace == w.trace && r.value.net == w.net && SameReadings(r.value, w)
  {
    match NthWord(CString(w.buff), 2)
    case None => Some(w)
    case Some(tok) =>
      if |tok| < PORT_SIZE then Some(w.(sensorPort := tok + [NUL] + w.sensorPort[|tok| + 1..]))
      else None
  }

  /** sscanf(buff, "%ld %d ...", &currentTime, &<the kind's global>): each
      conversion that succeeds stores its number. */
  function Scanned(w: World, kind: Kind): (r: World)
    requires Wf(w)
    ensures Wf(r) && r.trace == w.trace && r.net == w.net && r.buff == w.buff
  {
    var (t, v) := ScanTwoInts(CString(w.buff));
    var w1 := if t.Some? then w.(currentTime := t.value) else w;
    if v.None? then w1
    else match kind
      case Temperature => w1.(currentTemp := v.value)
      case Humidity => w1.(currentHum := v.value)
      case Wind => w1.(currentWind := v.value)
  }

  /** close(fd). */
  function CloseFd(w: World, fd: int): (r: World)
    requires Wf(w)
    ensures Wf(r) && w.trace <= r.trace && fd !in r.live
  {
    w.(live := w.live - {fd}, trace := w.trace + [Closed(fd)])
  }

  // ------------------------------------------------------- sensorConnect

  /** How a function of the client ends. */
  datatype Halt = Exit(code: int) | Undefined
  datatype Outcome = Returned(fd: int) | Halted(halt: Halt)

  /** sensorConnect(server_fd): authenticate with the dispatch server and
      read the sensor port from its reply, then log in to the sensor host. */
  function SensorConnect(w: World, serverFd: int): (res: (World, Outcome))
    requires Wf(w)
    ensures Wf(res.0) && w.trace <= res.0.trace && SameReadings(res.0, w)
    ensures res.1.Returned? ==> res.1.fd == FAILED || res.1.fd == w.net.nextFd
  {
    var w1 := Transmit(w, serverFd, SERVER_AUTH);
    if w1.sentBytes == -1 then (w1, Returned(FAILED))
    else
      var w2 := Receive(w1, serverFd);
      if w2.recvBytes == -1 || w2.recvBytes == 0 then (w2, Returned(FAILED))
      else match ScanPort(w2)
        case None => (w2, Halted(Undefined))
        case Some(w3) => SensorLogin(w3)
  }

  /** The second half of sensorConnect: connect to the sensor host on the
      port in sensorPort, send its AUTH line and look for "SUCCESS\n" in the
      answer; the new socket is returned and buff cleared on success. */
  function SensorLogin(w: World): (res: (World, Outcome))
    requires Wf(w)
    ensures Wf(res.0) && w.trace <= res.0.trace && SameReadings(res.0, w)
    ensures res.1.Returned? ==> res.1.fd == FAILED || res.1.fd == w.net.nextFd
  {
    var (w1, sensor) := Connect(w, SENSOR_HOST, CString(w.sensorPort));
    if sensor.None? then (w1, Halted(Exit(1)))
    else
      var w2 := Transmit(w1, sensor.value, SENSOR_AUTH);
      if w2.sentBytes == -1 then (w2, Returned(FAILED))
      else
        var w3 := Receive(w2, sensor.value);
        if w3.recvBytes == -1 || w3.recvBytes == 0 then (w3, Returned(FAILED))
        else if !Contains(CString(w3.buff), SUCCESS) then (w3, Returned(FAILED))
        else (w3.(buff := Zeros(BUFF_SIZE)), Returned(sensor.value))
  }

  // -------------------------------------------------------------- checks

  /** Which message a check ends with. */
  datatype Report = CommandSendError | ReplyRecvError | ReplyClosed | CloseSendError | AckRecvError | BadAck | Acknowledged

  /** tempCheck, humidityCheck and windCheck: send the command and scan the
      reply into the readings, then close the session. */
  function Check(w: World, fd: int, kind: Kind): (res: (World, Report))
    requires Wf(w)
    ensures Wf(res.0) && w.trace <= res.0.trace
  {
    var w1 := Transmit(w, fd, Command(kind));
    if w1.sentBytes == -1 then (w1, CommandSendError)
    else
      var w2 := Receive(w1, fd);
      if w2.recvBytes == -1 then (w2, ReplyRecvError)
      else if w2.recvBytes == 0 then (w2, ReplyClosed)
      else CloseSession(Scanned(w2, kind), fd)
  }

  /** The second half of each check: send CLOSE and look for "BYE\n" in the
      acknowledgement; buff is cleared when it is there. */
  function CloseSession(w: World, fd: int): (res: (World, Report))
    requires Wf(w)
    ensures Wf(res.0) && SameReadings(res.0, w)
    ensures res.0.trace == w.trace + (if SendSucceeds(w, fd) then [Sent(fd, CLOSE)] else [])
    ensures res.0.net.connects == w.net.connects && res.0.net.nextFd == w.net.nextFd && res.0.live == w.live
  {
    var w1 := Transmit(w, fd, CLOSE);
    if w1.sentBytes == -1 then (w1, CloseSendError)
    else
      var w2 := Receive(w1, fd);
      if w2.recvBytes == -1 then (w2, AckRecvError)
      else if !Contains(CString(w2.buff), BYE) then (w2, BadAck)
      else (w2.(buff := Zeros(BUFF_SIZE)), Acknowledged)
  }

  // ------------------------------------------------------------ mainLoop

  /** One stdin read: the characters fgets stored, end of input, or an error. */
  datatype Input = Line(text: Stored) | AtEof | ReadError

  /** What a selection asks for. */
  datatype Action = Query(kind: Kind) | Quit | Invalid

  /** The menu number of each check. */
  function Number(kind: Kind): int {
    match kind
    case Temperature => 1
    case Humidity => 2
    case Wind => 3
  }

  /** mainLoop's switch: 1, 2 and 3 are the checks, 4 quits, anything else
      is invalid. */
  function ActionOf(selection: int): (a: Action)
    ensures a.Query? <==> 1 <= selection <= 3
    ensures a.Query? ==> Number(a.kind) == selection
    ensures a == Quit <==> selection == 4
  {
    if selection == 1 then Query(Temperature)
    else if selection == 2 then Query(Humidity)
    else if selection == 3 then Query(Wind)
    else if selection == 4 then Quit
    else Invalid
  }

  /** prompt() and the switch on its selection, with both descriptors of the
      current iteration. */
  function Dispatch(w: World, serverFd: int, sensorFd: int, input: Input): (res: (World, Option<Halt>))
    requires Wf(w)
    ensures Wf(res.0) && w.trace <= res.0.trace
    ensures !input.Line? ==> res.1.Some?
  {
    match input
    case AtEof => (w, Some(Exit(0)))
    case ReadError => (w, Some(Exit(1)))
    case Line(text) =>
      match ActionOf(Menu.Selection(text))
      case Query(kind) => (Check(w, sensorFd, kind).0, None)
      case Quit => (CloseFd(w, serverFd), Some(Exit(0)))
      case Invalid => (w, None)
  }

  /** The connections every iteration makes before it prompts: the dispatch
      server, then sensorConnect. Gives the world and both descriptors, or
      how the program ended. */
  function Prepare(w: World): (res: (World, Option<(int, int)>, Option<Halt>))
    requires Wf(w)
    ensures Wf(res.0) && w.trace <= res.0.trace
    ensures res.1.Some? <==> res.2.None?
  {
    var (w1, server) := Connect(w, SERVER_HOST, SERVER_PORT);
    if server.None? then (w1, None, Some(Exit(1)))
    else
      var (w2, out) := SensorConnect(w1, server.value);
      match out
      case Halted(h) => (w2, None, Some(h))
      case Returned(sensor) => (w2, Some((server.value, sensor)), None)
  }

  /** One pass of mainLoop's while loop. */
  function Iteration(w: World, input: Input): (res: (World, Option<Halt>))
    requires Wf(w)
    ensures Wf(res.0) && w.trace <= res.0.trace
    ensures !input.Line? ==> res.1.Some?
  {
    var (w1, fds, halt) := Prepare(w);
    if halt.Some? then (w1, halt)
    else Dispatch(w1, fds.value.0, fds.value.1, input)
  }

  /** mainLoop until the program ends, reading one input per iteration;
      once the inputs are used up, stdin is at its end. */
  function Run(w: World, inputs: seq<Input>): (res: (World, Halt))
    requires Wf(w)
    ensures Wf(res.0) && w.trace <= res.0.trace
    decreases |inputs|
  {
    var input := if inputs == [] then AtEof else inputs[0];
    var (r, halt) := Iteration(w, input);
    if halt.Some? then (r, halt.value) else Run(r, inputs[1..])
  }
}
