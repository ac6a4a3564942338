/**
 * The command runner `connect_and_execute.py`: reads the commands to run,
 * parses the host inventory, and for each host in turn chooses how to
 * authenticate, connects, runs every command and reports its output.
 *
 * The SSH session is an oracle (`Transport`); what the runner prints and
 * logs is a trace of `Event`s.
 */
module ConnectAndExecute {
  import opened Wrappers
  import opened Text
  import opened ParseHosts
  import opened Seqs

  // ------------------------------------------------------- command file

  /** The comprehension that reads a command file: the stripped lines that
      are neither blank nor comments, in file order. */
  function CommandsFromFile(lines: seq<string>): (cmds: seq<string>)
    ensures |cmds| <= |lines|
    ensures forall i | 0 <= i < |cmds| :: Trimmed(cmds[i]) && !IsBlankOrComment(cmds[i])
    decreases |lines|
  {
    if lines == [] then []
    else
      var line := Strip(lines[|lines| - 1]);
      CommandsFromFile(lines[..|lines| - 1]) + (if IsBlankOrComment(line) then [] else [line])
  }

  /** A command file read in two pieces gives the commands of the first
      piece followed by those of the second. */
  lemma {:induction false} CommandsAppend(a: seq<string>, b: seq<string>)
    ensures CommandsFromFile(a + b) == CommandsFromFile(a) + CommandsFromFile(b)
    decreases |b|
  {
    if b == [] {
      assert a + b == a;
    } else {
      var b', x := b[..|b| - 1], b[|b| - 1];
      assert (a + b)[..|a + b| - 1] == a + b' && (a + b)[|a + b| - 1] == x;
      CommandsAppend(a, b');
      var tail := if IsBlankOrComment(Strip(x)) then [] else [Strip(x)];
      assert CommandsFromFile(a + b) == CommandsFromFile(a + b') + tail;
      assert CommandsFromFile(b) == CommandsFromFile(b') + tail;
      AppendAssoc(CommandsFromFile(a), CommandsFromFile(b'), tail);
    }
  }

  /** A line gives its stripped text as a command, unless it is blank or a
      comment, in which case it gives nothing. */
  lemma CommandOfLine(line: string)
    ensures !IsBlankOrComment(Strip(line)) ==> CommandsFromFile([line]) == [Strip(line)]
    ensures IsBlankOrComment(Strip(line)) ==> CommandsFromFile([line]) == []
  {
    assert [line][..0] == [];
  }

  lemma {:induction false} LineGivesCommand(lines: seq<string>, i: nat)
    requires i < |lines| && !IsBlankOrComment(Strip(lines[i]))
    ensures Strip(lines[i]) in CommandsFromFile(lines)
    decreases |lines|
  {
    var front := lines[..|lines| - 1];
    if i < |front| {
      assert front[i] == lines[i];
      LineGivesCommand(front, i);
    }
  }

  lemma {:induction false} CommandComesFromLine(lines: seq<string>, c: string)
    requires c in CommandsFromFile(lines)
    ensures exists i | 0 <= i < |lines| :: !IsBlankOrComment(Strip(lines[i])) && c == Strip(lines[i])
    decreases |lines|
  {
    var front := lines[..|lines| - 1];
    if c in CommandsFromFile(front) {
      CommandComesFromLine(front, c);
      var i :| 0 <= i < |front| && !IsBlankOrComment(Strip(front[i])) && c == Strip(front[i]);
      assert lines[i] == front[i];
    } else {
      assert c == Strip(lines[|lines| - 1]);
    }
  }

  /** A string is a command exactly when it is the stripped form of some
      line of the file that is neither blank nor a comment. */
  lemma CommandsMembership(lines: seq<string>, c: string)
    ensures c in CommandsFromFile(lines)
        <==> exists i | 0 <= i < |lines| :: !IsBlankOrComment(Strip(lines[i])) && c == Strip(lines[i])
  {
    if c in CommandsFromFile(lines) {
      CommandComesFromLine(lines, c);
    } else if i :| 0 <= i < |lines| && !IsBlankOrComment(Strip(lines[i])) && c == Strip(lines[i]) {
      LineGivesCommand(lines, i);
    }
  }

  /** A file whose lines are all trimmed commands is read back unchanged. */
  lemma {:induction false} CommandsOfCleanFile(lines: seq<string>)
    requires forall i | 0 <= i < |lines| :: Trimmed(lines[i]) && !IsBlankOrComment(lines[i])
    ensures CommandsFromFile(lines) == lines
    decreases |lines|
  {
    if lines != [] {
      var front := lines[..|lines| - 1];
      CommandsOfCleanFile(front);
      var last := lines[|lines| - 1];
      StripUnique([], last, []);
      assert [] + last + [] == last;
      assert front + [last] == lines;
    }
  }

  /** Filtering the filtered commands again changes nothing. */
  lemma CommandsIdempotent(lines: seq<string>)
    ensures CommandsFromFile(CommandsFromFile(lines)) == CommandsFromFile(lines)
  {
    CommandsOfCleanFile(CommandsFromFile(lines));
  }

  // ------------------------------------------------- per-host settings

  /** `host_details.get(k)`. */
  function Get(details: HostRecord, k: string): Option<string> {
    if k in details then Some(details[k]) else None
  }

  /** Python truthiness of a value that may be absent: present and not the
      empty string. */
  predicate Truthy(v: Option<string>) {
    v.Some? && v.value != ""
  }

  /** How a host is authenticated, with the secret or key file it uses. */
  datatype AuthMethod =
    | PasswordAuth(password: string)
    | KeyAuth(keyPath: string)
    | NoAuth

  /** The word the runner prints for an authentication method. */
  function MethodName(m: AuthMethod): string {
    match m
    case PasswordAuth(_) => "password"
    case KeyAuth(_) => "key"
    case NoAuth => "none"
  }

  /** The conditional expression that picks the authentication method: a
      password wins over a key, and an empty value counts as absent. */
  function ChooseAuth(password: Option<string>, keyPath: Option<string>): (m: AuthMethod)
    ensures m.PasswordAuth? <==> Truthy(password)
    ensures m.PasswordAuth? ==> m.password == password.value
    ensures m.KeyAuth? <==> !Truthy(password) && Truthy(keyPath)
    ensures m.KeyAuth? ==> m.keyPath == keyPath.value
    ensures m.NoAuth? <==> !Truthy(password) && !Truthy(keyPath)
  {
    if Truthy(password) then PasswordAuth(password.value)
    else if Truthy(keyPath) then KeyAuth(keyPath.value)
    else NoAuth
  }

  const DefaultPort: int := 22
  const DefaultUser: string := "root"
  /** Seconds `connect` waits for the host. */
  const ConnectTimeout: nat := 10
  /** Public-key algorithms disabled when a private key is used. */
  const DisabledPubkeys: seq<string> := ["rsa-sha2-512", "rsa-sha2-256"]

  // ------------------------------------------------------ int(port)

  predicate IsDigit(c: char) {
    '0' <= c <= '9'
  }

  predicate AllDigits(s: string) {
    forall i | 0 <= i < |s| :: IsDigit(s[i])
  }

  /** The text `int()` accepts here: an optional sign and at least one digit. */
  predicate IsIntLiteral(s: string) {
    if s != [] && (s[0] == '+' || s[0] == '-') then s[1..] != [] && AllDigits(s[1..])
    else s != [] && AllDigits(s)
  }

  /** The value of a run of decimal digits. */
  function DigitsValue(s: string): nat
    requires AllDigits(s)
    decreases |s|
  {
    if s == [] then 0
    else DigitsValue(s[..|s| - 1]) * 10 + (s[|s| - 1] as int - '0' as int)
  }

  /** `int(s)` on a string: `None` where Python raises `ValueError`. */
  function ParseInt(s: string): (r: Option<int>)
    ensures r.Some? <==> IsIntLiteral(s)
  {
    if s != [] && (s[0] == '+' || s[0] == '-') then
      if s[1..] != [] && AllDigits(s[1..]) then
        var magnitude: int := DigitsValue(s[1..]);
        Some(if s[0] == '-' then -magnitude else magnitude)
      else None
    else if s != [] && AllDigits(s) then Some(DigitsValue(s))
    else None
  }

  function DigitChar(d: nat): char
    requires d < 10
  {
    ('0' as int + d) as char
  }

  /** The decimal digits of `n`, without leading zeros. */
  function NatToDigits(n: nat): (s: string)
    ensures s != [] && AllDigits(s)
  {
    if n < 10 then [DigitChar(n)] else NatToDigits(n / 10) + [DigitChar(n % 10)]
  }

  /** `str(n)`. */
  function IntToString(n: int): string {
    if n < 0 then "-" + NatToDigits(-n) else NatToDigits(n)
  }

  lemma {:induction false} DigitsRoundTrip(n: nat)
    ensures DigitsValue(NatToDigits(n)) == n
  {
    if n >= 10 {
      DigitsRoundTrip(n / 10);
      var s := NatToDigits(n);
      assert s[..|s| - 1] == NatToDigits(n / 10);
    }
  }

  lemma ParseUnsigned(s: string)
    requires s != [] && AllDigits(s)
    ensures ParseInt(s) == Some(DigitsValue(s) as int)
  {
    assert IsDigit(s[0]);
  }

  lemma ParseNegative(s: string)
    requires |s| >= 2 && s[0] == '-' && AllDigits(s[1..])
    ensures ParseInt(s) == Some(-(DigitsValue(s[1..]) as int))
  {
  }

  /** A `+` sign is allowed and changes nothing: `int("+22") == 22`. */
  lemma ParsePositive(s: string)
    requires |s| >= 2 && s[0] == '+' && AllDigits(s[1..])
    ensures ParseInt(s) == Some(DigitsValue(s[1..]) as int)
  {
  }

  /** `int(str(n)) == n`: a port written out in decimal is read back. */
  lemma ParseIntRoundTrip(n: int)
    ensures ParseInt(IntToString(n)) == Some(n)
  {
    if n < 0 {
      var digits := NatToDigits(-n);
      DigitsRoundTrip(-n);
      assert IntToString(n)[1..] == digits;
      ParseNegative(IntToString(n));
    } else {
      DigitsRoundTrip(n);
      ParseUnsigned(NatToDigits(n));
    }
  }

  /** The `ValueError` that `int()` raises on the port, outside any `try`. */
  datatype Crash = InvalidPort(value: string)

  /** The settings `execute_commands_on_host` reads from a host record. */
  datatype Settings = Settings(host: Option<string>, ip: Option<string>, port: int, user: string, auth: AuthMethod)

  /** The settings of a host, or the crash of `int()` on its port. */
  function SettingsOf(details: HostRecord): (r: Result<Settings, Crash>)
    ensures r.Failure? <==> "port" in details && !IsIntLiteral(details["port"])
    ensures r.Failure? ==> r.error == InvalidPort(details["port"])
    ensures r.Success? ==> r.value.host == Get(details, "host") && r.value.ip == Get(details, "ip")
    ensures r.Success? && "port" !in details ==> r.value.port == 22
    ensures r.Success? && "user" !in details ==> r.value.user == "root"
    ensures r.Success? && "user" in details ==> r.value.user == details["user"]
    ensures r.Success? ==> r.value.auth == ChooseAuth(Get(details, "password"), Get(details, "key"))
  {
    var port := if "port" in details then ParseInt(details["port"]) else Some(DefaultPort);
    if port.None? then Failure(InvalidPort(details["port"]))
    else
      var user := if "user" in details then details["user"] else DefaultUser;
      Success(Settings(Get(details, "host"), Get(details, "ip"), port.value, user,
                       ChooseAuth(Get(details, "password"), Get(details, "key"))))
  }

  /** A port written as `str(n)` is the port used. */
  lemma PortRead(details: HostRecord, n: int)
    requires "port" in details && details["port"] == IntToString(n)
    ensures SettingsOf(details).Success? && SettingsOf(details).value.port == n
  {
    ParseIntRoundTrip(n);
  }

  /** An empty `password=` is the same as no password at all. */
  lemma EmptyPasswordIgnored(details: HostRecord)
    requires "password" in details && details["password"] == ""
    ensures SettingsOf(details) == SettingsOf(details - {"password"})
  {
    var rest := details - {"password"};
    assert Get(rest, "password") == None;
    assert forall k | k != "password" :: Get(rest, k) == Get(details, k);
  }

  // ------------------------------------------------------ SSH oracle

  /** What an SSH call can raise: `AuthenticationException` (and its
      subclasses) or any other exception, with its message. */
  datatype Fault = AuthenticationFault | OtherFault(message: string)

  datatype Credential = NoCredential | PrivateKey(path: string) | Password(secret: string)

  /** The keyword arguments passed to `connect`. */
  datatype ConnectParams = ConnectParams(
    hostname: Option<string>, port: int, username: string, timeout: nat,
    credential: Credential, disabledPubkeys: seq<string>)

  /** The two streams of a command, before decoding is stripped. */
  datatype Reply = Reply(stdout: string, stderr: string)

  /** The world outside the runner: whether a key file exists, whether
      loading it raises, whether connecting raises, and what a command
      returns given the commands already run on the same connection. */
  datatype Transport = Transport(
    keyFileExists: string -> bool,
    loadKey: string -> Option<Fault>,
    connect: ConnectParams -> Option<Fault>,
    exec: (ConnectParams, seq<string>, string) -> Result<Reply, Fault>)

  // ------------------------------------------------------- the trace

  /** What the runner prints or logs, in order. */
  datatype Event =
    | Connecting(host: Option<string>, ip: Option<string>, port: int, authName: string)
    | KeyFileMissing(host: Option<string>, path: string)
    | NoAuthMethod(host: Option<string>)
    | Connected(host: Option<string>)
    | Executing(command: string)
    | Succeeded(host: Option<string>, command: string, output: string)
    | StderrOutput(host: Option<string>, command: string, error: string)
    | NoOutput(host: Option<string>, command: string)
    | AuthenticationFailed(host: Option<string>)
    | HostError(host: Option<string>, message: string)
    | Closed(host: Option<string>)

  /** The two `except` clauses: an authentication failure, or any other
      exception with its message. */
  function Report(host: Option<string>, f: Fault): (e: Event)
    ensures e.AuthenticationFailed? || e.HostError?
    ensures e.AuthenticationFailed? <==> f.AuthenticationFault?
    ensures e.HostError? <==> f.OtherFault?
    ensures e.host == host
  {
    match f
    case AuthenticationFault => AuthenticationFailed(host)
    case OtherFault(m) => HostError(host, m)
  }

  /** How the stripped output of one command is reported: a success when
      there is output, a warning when there is error output (both can
      happen, success first), and the no-output message when both are
      empty. */
  function Classify(host: Option<string>, command: string, output: string, error: string): (es: seq<Event>)
    ensures 1 <= |es| <= 2
    ensures Succeeded(host, command, output) in es <==> output != ""
    ensures StderrOutput(host, command, error) in es <==> error != ""
    ensures NoOutput(host, command) in es <==> output == "" && error == ""
    ensures output != "" ==> es[0] == Succeeded(host, command, output)
    ensures forall i | 0 <= i < |es| :: es[i].Succeeded? || es[i].StderrOutput? || es[i].NoOutput?
  {
    (if output != "" then [Succeeded(host, command, output)] else [])
    + (if error != "" then [StderrOutput(host, command, error)] else [])
    + (if output == "" && error == "" then [NoOutput(host, command)] else [])
  }

  /** In terms of the raw streams: the no-output message appears exactly
      when both streams are whitespace only. */
  lemma NoOutputIffBlankStreams(host: Option<string>, command: string, reply: Reply)
    ensures NoOutput(host, command) in Classify(host, command, Strip(reply.stdout), Strip(reply.stderr))
        <==> AllSpace(reply.stdout) && AllSpace(reply.stderr)
  {
    StripEmpty(reply.stdout);
    StripEmpty(reply.stderr);
  }

  // ------------------------------------------------- the command loop

  /** The command loop after `n` commands: what it reported and the fault
      that ended it, if any. */
  datatype CommandsOutcome = CommandsOutcome(events: seq<Event>, fault: Option<Fault>)

  /** What is reported about one command once it has run: its classified
      output, or nothing when it raised. */
  function Reported(host: Option<string>, command: string, reply: Result<Reply, Fault>): (es: seq<Event>)
    ensures reply.Failure? ==> es == []
    ensures forall i | 0 <= i < |es| :: es[i].Succeeded? || es[i].StderrOutput? || es[i].NoOutput?
  {
    match reply
    case Failure(_) => []
    case Success(r) => Classify(host, command, Strip(r.stdout), Strip(r.stderr))
  }

  /** One iteration of the command loop, after the commands `done`: a
      loop that has already failed stays as it is; otherwise the command is
      announced, run, and its output classified, or its fault recorded. */
  function CommandStep(host: Option<string>, params: ConnectParams, done: seq<string>, prev: CommandsOutcome,
                       command: string, t: Transport): CommandsOutcome
  {
    if prev.fault.Some? then prev
    else
      var reply := t.exec(params, done, command);
      CommandsOutcome(prev.events + [Executing(command)] + Reported(host, command, reply),
                      if reply.Failure? then Some(reply.error) else None)
  }

  /** The loop `for command in commands` on a connected host: the first
      fault ends it. */
  function RunCommands(host: Option<string>, params: ConnectParams, commands: seq<string>, t: Transport): CommandsOutcome
    decreases |commands|
  {
    if commands == [] then CommandsOutcome([], None)
    else
      var done := commands[..|commands| - 1];
      CommandStep(host, params, done, RunCommands(host, params, done, t), commands[|commands| - 1], t)
  }

  /** The event reporting the fault that ended a session, if any. */
  function FaultEvents(host: Option<string>, fault: Option<Fault>): (es: seq<Event>)
    ensures fault.None? ==> es == []
    ensures fault.Some? ==> es == [Report(host, fault.value)]
  {
    OptionToSeq(if fault.Some? then Some(Report(host, fault.value)) else None)
  }

  /** `client.connect(**connect_params)` and what follows it in the `try`. */
  function Session(host: Option<string>, params: ConnectParams, commands: seq<string>, t: Transport): seq<Event> {
    match t.connect(params)
    case Some(f) => [Report(host, f)]
    case None =>
      var o := RunCommands(host, params, commands, t);
      [Connected(host)] + o.events + FaultEvents(host, o.fault)
  }

  /** The `try` block of `execute_commands_on_host`, with its `except`
      clauses: building the connection parameters, the early returns when
      the key file is missing or no method applies, and the session. */
  function Attempt(s: Settings, commands: seq<string>, t: Transport): seq<Event> {
    var params := ConnectParams(s.ip, s.port, s.user, ConnectTimeout, NoCredential, []);
    match s.auth
    case KeyAuth(path) =>
      if !t.keyFileExists(path) then [KeyFileMissing(s.host, path)]
      else if t.loadKey(path).Some? then [Report(s.host, t.loadKey(path).value)]
      else Session(s.host, params.(credential := PrivateKey(path), disabledPubkeys := DisabledPubkeys), commands, t)
    case PasswordAuth(password) =>
      Session(s.host, params.(credential := Password(password)), commands, t)
    case NoAuth =>
      [NoAuthMethod(s.host)]
  }

  /** `execute_commands_on_host`: a crash on a port `int()` cannot read,
      or the host's trace, which announces the connection, and whose
      `finally` closes it on every path. */
  function HostRun(details: HostRecord, commands: seq<string>, t: Transport): (r: Result<seq<Event>, Crash>)
    ensures r.Failure? <==> SettingsOf(details).Failure?
    ensures r.Success? ==> |r.value| >= 3
    ensures r.Success? ==> r.value[0] == Connecting(Get(details, "host"), Get(details, "ip"),
                                                    SettingsOf(details).value.port,
                                                    MethodName(SettingsOf(details).value.auth))
    ensures r.Success? ==> r.value[|r.value| - 1] == Closed(Get(details, "host"))
  {
    match SettingsOf(details)
    case Failure(c) => Failure(c)
    case Success(s) =>
      var attempt := Attempt(s, commands, t);
      assert |attempt| >= 1;
      Success([Connecting(s.host, s.ip, s.port, MethodName(s.auth))] + attempt + [Closed(s.host)])
  }

  // -------------------------------------------------------- projections

  /** The commands announced in a trace, in order. */
  function Executions(events: seq<Event>): (cmds: seq<string>)
    ensures |cmds| <= |events|
    decreases |events|
  {
    if events == [] then []
    else
      var e := events[|events| - 1];
      Executions(events[..|events| - 1]) + (if e.Executing? then [e.command] else [])
  }

  /** The hosts whose connection a trace closes, in order. */
  function ClosedHosts(events: seq<Event>): (hs: seq<Option<string>>)
    ensures |hs| <= |events|
    decreases |events|
  {
    if events == [] then []
    else
      var e := events[|events| - 1];
      ClosedHosts(events[..|events| - 1]) + (if e.Closed? then [e.host] else [])
  }

  lemma {:induction false} ExecutionsAppend(a: seq<Event>, b: seq<Event>)
    ensures Executions(a + b) == Executions(a) + Executions(b)
    decreases |b|
  {
    if b == [] {
      assert a + b == a;
    } else {
      var b' := b[..|b| - 1];
      assert (a + b)[..|a + b| - 1] == a + b';
      ExecutionsAppend(a, b');
    }
  }

  lemma {:induction false} ClosedHostsAppend(a: seq<Event>, b: seq<Event>)
    ensures ClosedHosts(a + b) == ClosedHosts(a) + ClosedHosts(b)
    decreases |b|
  {
    if b == [] {
      assert a + b == a;
    } else {
      var b' := b[..|b| - 1];
      assert (a + b)[..|a + b| - 1] == a + b';
      ClosedHostsAppend(a, b');
    }
  }

  lemma ExecutionsOfOne(e: Event)
    ensures Executions([e]) == if e.Executing? then [e.command] else []
  {
    assert [e][..0] == [];
  }

  /** A trace that announces no command has no executions. */
  lemma {:induction false} NoExecutions(es: seq<Event>)
    requires forall i | 0 <= i < |es| :: !es[i].Executing?
    ensures Executions(es) == []
    decreases |es|
  {
    if es != [] {
      NoExecutions(es[..|es| - 1]);
    }
  }

  lemma QuietTail(a: seq<Event>, b: seq<Event>)
    requires forall i | 0 <= i < |b| :: !b[i].Executing?
    ensures Executions(a + b) == Executions(a)
  {
    ExecutionsAppend(a, b);
    NoExecutions(b);
    AppendEmpty(Executions(a));
  }

  /** Events around a trace that announce no command add no executions. */
  lemma ExecutionsFramed(a: seq<Event>, mid: seq<Event>, b: seq<Event>)
    requires forall i | 0 <= i < |a| :: !a[i].Executing?
    requires forall i | 0 <= i < |b| :: !b[i].Executing?
    ensures Executions(a + mid + b) == Executions(mid)
  {
    ExecutionsAppend(a + mid, b);
    ExecutionsAppend(a, mid);
    NoExecutions(a);
    NoExecutions(b);
    AppendEmpty(Executions(mid));
  }

  /** A trace that closes no connection has no closed hosts. */
  lemma {:induction false} NoClosures(es: seq<Event>)
    requires forall i | 0 <= i < |es| :: !es[i].Closed?
    ensures ClosedHosts(es) == []
    decreases |es|
  {
    if es != [] {
      NoClosures(es[..|es| - 1]);
    }
  }

  lemma ClosedQuietTail(a: seq<Event>, b: seq<Event>)
    requires forall i | 0 <= i < |b| :: !b[i].Closed?
    ensures ClosedHosts(a + b) == ClosedHosts(a)
  {
    ClosedHostsAppend(a, b);
    NoClosures(b);
    AppendEmpty(ClosedHosts(a));
  }

  // ------------------------------------------- properties of one host

  /** One more command read by the command loop. */
  lemma CommandsSnoc(host: Option<string>, params: ConnectParams, commands: seq<string>, j: nat, t: Transport)
    requires j < |commands|
    ensures RunCommands(host, params, commands[..j + 1], t)
         == CommandStep(host, params, commands[..j], RunCommands(host, params, commands[..j], t), commands[j], t)
  {
    assert commands[..j + 1][..j] == commands[..j];
  }

  /** Once a command has failed, the rest are not run. */
  lemma {:induction false} FaultStopsCommands(host: Option<string>, params: ConnectParams, commands: seq<string>, j: nat, t: Transport)
    requires j <= |commands|
    requires RunCommands(host, params, commands[..j], t).fault.Some?
    ensures RunCommands(host, params, commands, t) == RunCommands(host, params, commands[..j], t)
    decreases |commands|
  {
    if j < |commands| {
      var front := commands[..|commands| - 1];
      assert front[..j] == commands[..j];
      FaultStopsCommands(host, params, front, j, t);
    } else {
      assert commands[..j] == commands;
    }
  }

  /** A step that follows no failure adds exactly its own command to what
      has been run. */
  lemma StepExecutions(host: Option<string>, params: ConnectParams, done: seq<string>, prev: CommandsOutcome,
                       command: string, t: Transport)
    requires prev.fault.None?
    ensures Executions(CommandStep(host, params, done, prev, command, t).events) == Executions(prev.events) + [command]
  {
    var announced := prev.events + [Executing(command)];
    assert Executions(announced) == Executions(prev.events) + [command] by {
      ExecutionsAppend(prev.events, [Executing(command)]);
      ExecutionsOfOne(Executing(command));
    }
    QuietTail(announced, Reported(host, command, t.exec(params, done, command)));
  }

  /** The commands run on a connection are a prefix of the list, in list
      order; all of them when no command failed, and at least one when one
      did. */
  lemma {:induction false} CommandsInOrder(host: Option<string>, params: ConnectParams, commands: seq<string>, t: Transport)
    ensures var ex := Executions(RunCommands(host, params, commands, t).events);
      |ex| <= |commands| && ex == commands[..|ex|]
    ensures RunCommands(host, params, commands, t).fault.None?
        ==> Executions(RunCommands(host, params, commands, t).events) == commands
    ensures RunCommands(host, params, commands, t).fault.Some?
        ==> Executions(RunCommands(host, params, commands, t).events) != []
    decreases |commands|
  {
    if commands != [] {
      var done := commands[..|commands| - 1];
      var command := commands[|commands| - 1];
      var prev := RunCommands(host, params, done, t);
      CommandsInOrder(host, params, done, t);
      var ex := Executions(prev.events);
      assert RunCommands(host, params, commands, t) == CommandStep(host, params, done, prev, command, t);
      if prev.fault.None? {
        StepExecutions(host, params, done, prev, command, t);
        SplitLast(commands);
      } else {
        assert done[..|ex|] == commands[..|ex|];
      }
    }
  }

  /** A step never closes the connection. */
  lemma StepNeverCloses(host: Option<string>, params: ConnectParams, done: seq<string>, prev: CommandsOutcome,
                        command: string, t: Transport)
    requires prev.fault.None?
    ensures ClosedHosts(CommandStep(host, params, done, prev, command, t).events) == ClosedHosts(prev.events)
  {
    var announced := prev.events + [Executing(command)];
    ClosedQuietTail(prev.events, [Executing(command)]);
    ClosedQuietTail(announced, Reported(host, command, t.exec(params, done, command)));
  }

  /** Commands announce, run and report; they never close the connection. */
  lemma {:induction false} CommandsNeverClose(host: Option<string>, params: ConnectParams, commands: seq<string>, t: Transport)
    ensures ClosedHosts(RunCommands(host, params, commands, t).events) == []
    decreases |commands|
  {
    if commands != [] {
      var done := commands[..|commands| - 1];
      CommandsNeverClose(host, params, done, t);
      if RunCommands(host, params, done, t).fault.None? {
        StepNeverCloses(host, params, done, RunCommands(host, params, done, t), commands[|commands| - 1], t);
      }
    }
  }

  /** What a session runs: nothing when `connect` raises, else what the
      command loop runs. */
  lemma SessionExecutions(host: Option<string>, params: ConnectParams, commands: seq<string>, t: Transport)
    ensures t.connect(params).Some? ==> Executions(Session(host, params, commands, t)) == []
    ensures t.connect(params).None?
        ==> Executions(Session(host, params, commands, t)) == Executions(RunCommands(host, params, commands, t).events)
  {
    match t.connect(params)
    case Some(f) =>
      NoExecutions([Report(host, f)]);
    case None =>
      var o := RunCommands(host, params, commands, t);
      ExecutionsFramed([Connected(host)], o.events, FaultEvents(host, o.fault));
  }

  /** The commands a session runs are a prefix of the list. */
  lemma SessionInOrder(host: Option<string>, params: ConnectParams, commands: seq<string>, t: Transport)
    ensures var ex := Executions(Session(host, params, commands, t));
      |ex| <= |commands| && ex == commands[..|ex|]
  {
    SessionExecutions(host, params, commands, t);
    CommandsInOrder(host, params, commands, t);
  }

  /** The commands the `try` block runs are a prefix of the list. */
  lemma AttemptInOrder(s: Settings, commands: seq<string>, t: Transport)
    ensures var ex := Executions(Attempt(s, commands, t));
      |ex| <= |commands| && ex == commands[..|ex|]
  {
    var params := ConnectParams(s.ip, s.port, s.user, ConnectTimeout, NoCredential, []);
    match s.auth
    case KeyAuth(path) =>
      if t.keyFileExists(path) && t.loadKey(path).None? {
        SessionInOrder(s.host, params.(credential := PrivateKey(path), disabledPubkeys := DisabledPubkeys), commands, t);
      } else {
        NoExecutions(Attempt(s, commands, t));
      }
    case PasswordAuth(password) =>
      SessionInOrder(s.host, params.(credential := Password(password)), commands, t);
    case NoAuth =>
      NoExecutions(Attempt(s, commands, t));
  }

  /** A session never closes the connection itself. */
  lemma SessionNeverCloses(host: Option<string>, params: ConnectParams, commands: seq<string>, t: Transport)
    ensures ClosedHosts(Session(host, params, commands, t)) == []
  {
    match t.connect(params)
    case Some(f) =>
      NoClosures([Report(host, f)]);
    case None =>
      var o := RunCommands(host, params, commands, t);
      var fe := FaultEvents(host, o.fault);
      CommandsNeverClose(host, params, commands, t);
      ClosedHostsAppend([Connected(host)] + o.events, fe);
      ClosedHostsAppend([Connected(host)], o.events);
      NoClosures([Connected(host)]);
      NoClosures(fe);
  }

  /** An event written by one of the two `except` clauses. */
  predicate IsReport(e: Event) {
    e.AuthenticationFailed? || e.HostError?
  }

  predicate NoReports(es: seq<Event>) {
    forall i | 0 <= i < |es| :: !IsReport(es[i])
  }

  lemma NoReportsAppend(a: seq<Event>, b: seq<Event>)
    requires NoReports(a) && NoReports(b)
    ensures NoReports(a + b)
  {
    assert forall i | |a| <= i < |a + b| :: (a + b)[i] == b[i - |a|];
  }

  /** One iteration of the command loop adds no fault report. */
  lemma StepNeverReports(host: Option<string>, params: ConnectParams, done: seq<string>, prev: CommandsOutcome,
                         command: string, t: Transport)
    requires NoReports(prev.events)
    ensures NoReports(CommandStep(host, params, done, prev, command, t).events)
  {
    if prev.fault.None? {
      var tail := Reported(host, command, t.exec(params, done, command));
      assert NoReports(tail);
      NoReportsAppend(prev.events, [Executing(command)]);
      NoReportsAppend(prev.events + [Executing(command)], tail);
    }
  }

  /** The command loop itself never reports a fault: a fault only ends it. */
  lemma {:induction false} CommandsNeverReport(host: Option<string>, params: ConnectParams, commands: seq<string>, t: Transport)
    ensures NoReports(RunCommands(host, params, commands, t).events)
    decreases |commands|
  {
    if commands != [] {
      var done := commands[..|commands| - 1];
      CommandsNeverReport(host, params, done, t);
      StepNeverReports(host, params, done, RunCommands(host, params, done, t), commands[|commands| - 1], t);
    }
  }

  /** A session reports at most one fault, and only as its last event: the
      fault `connect` raised, or the one that ended the command loop; a
      session whose commands all ran reports none. */
  lemma SessionReportsFault(host: Option<string>, params: ConnectParams, commands: seq<string>, t: Transport)
    ensures t.connect(params).Some? ==> Session(host, params, commands, t) == [Report(host, t.connect(params).value)]
    ensures var es, o := Session(host, params, commands, t), RunCommands(host, params, commands, t);
      t.connect(params).None? ==>
        && (o.fault.None? ==> NoReports(es))
        && (o.fault.Some? ==> |es| >= 1 && NoReports(es[..|es| - 1]) && es[|es| - 1] == Report(host, o.fault.value))
  {
    if t.connect(params).None? {
      var o := RunCommands(host, params, commands, t);
      var body := [Connected(host)] + o.events;
      CommandsNeverReport(host, params, commands, t);
      NoReportsAppend([Connected(host)], o.events);
      if o.fault.None? {
        AppendEmpty(body);
      } else {
        DropPushed(body, Report(host, o.fault.value));
      }
    }
  }

  /** The `try` block never closes the connection itself. */
  lemma AttemptNeverCloses(s: Settings, commands: seq<string>, t: Transport)
    ensures ClosedHosts(Attempt(s, commands, t)) == []
  {
    var params := ConnectParams(s.ip, s.port, s.user, ConnectTimeout, NoCredential, []);
    match s.auth
    case KeyAuth(path) =>
      if t.keyFileExists(path) && t.loadKey(path).None? {
        SessionNeverCloses(s.host, params.(credential := PrivateKey(path), disabledPubkeys := DisabledPubkeys), commands, t);
      } else {
        NoClosures(Attempt(s, commands, t));
      }
    case PasswordAuth(password) =>
      SessionNeverCloses(s.host, params.(credential := Password(password)), commands, t);
    case NoAuth =>
      NoClosures(Attempt(s, commands, t));
  }

  /** Whatever happens on a host, its connection is closed exactly once,
      at the end, under the host's name. */
  lemma HostClosedOnce(details: HostRecord, commands: seq<string>, t: Transport)
    requires HostRun(details, commands, t).Success?
    ensures ClosedHosts(HostRun(details, commands, t).value) == [Get(details, "host")]
  {
    var s := SettingsOf(details).value;
    var attempt := Attempt(s, commands, t);
    var head := [Connecting(s.host, s.ip, s.port, MethodName(s.auth))];
    AttemptNeverCloses(s, commands, t);
    ClosedHostsAppend(head + attempt, [Closed(s.host)]);
    ClosedHostsAppend(head, attempt);
    NoClosures(head);
    assert [Closed(s.host)][..0] == [];
  }

  /** The commands run on a host are a prefix of the list, in list order. */
  lemma HostCommandsInOrder(details: HostRecord, commands: seq<string>, t: Transport)
    requires HostRun(details, commands, t).Success?
    ensures var ex := Executions(HostRun(details, commands, t).value);
      |ex| <= |commands| && ex == commands[..|ex|]
  {
    var s := SettingsOf(details).value;
    var attempt := Attempt(s, commands, t);
    ExecutionsFramed([Connecting(s.host, s.ip, s.port, MethodName(s.auth))], attempt, [Closed(s.host)]);
    AttemptInOrder(s, commands, t);
  }

  /** With no authentication method, or with a key whose file does not
      exist, the host is neither connected to nor sent any command: the
      trace does not depend on `connect`, `exec` or the key loader, and it
      announces no command. */
  lemma NoConnectionWithoutCredential(details: HostRecord, commands: seq<string>, t: Transport, t': Transport)
    requires SettingsOf(details).Success?
    requires var m := SettingsOf(details).value.auth;
      m.NoAuth? || (m.KeyAuth? && !t.keyFileExists(m.keyPath))
    requires t'.keyFileExists == t.keyFileExists
    ensures HostRun(details, commands, t') == HostRun(details, commands, t)
    ensures Executions(HostRun(details, commands, t).value) == []
    ensures forall i | 0 <= i < |HostRun(details, commands, t).value| :: !HostRun(details, commands, t).value[i].Connected?
  {
    var s := SettingsOf(details).value;
    var events := HostRun(details, commands, t).value;
    assert events == [Connecting(s.host, s.ip, s.port, MethodName(s.auth))] + Attempt(s, commands, t) + [Closed(s.host)];
    NoExecutions(events);
  }

  // -------------------------------------------------- the host loop

  /** The host loop after some hosts: the trace so far, and the crash that
      ended the run, if any. */
  datatype HostsOutcome = HostsOutcome(events: seq<Event>, crash: Option<Crash>)

  /** One iteration of the host loop: after a crash nothing more runs;
      otherwise the host runs, or crashes the run. */
  function HostStep(prev: HostsOutcome, details: HostRecord, commands: seq<string>, t: Transport): HostsOutcome {
    if prev.crash.Some? then prev
    else
      match HostRun(details, commands, t)
      case Failure(c) => HostsOutcome(prev.events, Some(c))
      case Success(es) => HostsOutcome(prev.events + es, None)
  }

  /** `for host_details in hosts: execute_commands_on_host(...)`: each host
      in turn; a crash on a port ends the whole run. */
  function RunHosts(hosts: seq<HostRecord>, commands: seq<string>, t: Transport): HostsOutcome
    decreases |hosts|
  {
    if hosts == [] then HostsOutcome([], None)
    else HostStep(RunHosts(hosts[..|hosts| - 1], commands, t), hosts[|hosts| - 1], commands, t)
  }

  /** The names of the hosts of an inventory, in order. */
  function HostNames(hosts: seq<HostRecord>): (names: seq<Option<string>>)
    ensures |names| == |hosts|
    ensures forall i | 0 <= i < |hosts| :: names[i] == Get(hosts[i], "host")
    decreases |hosts|
  {
    if hosts == [] then [] else HostNames(hosts[..|hosts| - 1]) + [Get(hosts[|hosts| - 1], "host")]
  }

  /** One more host visited by the host loop. */
  lemma HostsSnoc(hosts: seq<HostRecord>, i: nat, commands: seq<string>, t: Transport)
    requires i < |hosts|
    ensures RunHosts(hosts[..i + 1], commands, t) == HostStep(RunHosts(hosts[..i], commands, t), hosts[i], commands, t)
  {
    assert hosts[..i + 1][..i] == hosts[..i];
  }

  /** Once a port crashes the run, no later host is contacted. */
  lemma {:induction false} CrashStopsHosts(hosts: seq<HostRecord>, j: nat, commands: seq<string>, t: Transport)
    requires j <= |hosts|
    requires RunHosts(hosts[..j], commands, t).crash.Some?
    ensures RunHosts(hosts, commands, t) == RunHosts(hosts[..j], commands, t)
    decreases |hosts|
  {
    if j < |hosts| {
      var front := hosts[..|hosts| - 1];
      assert front[..j] == hosts[..j];
      CrashStopsHosts(front, j, commands, t);
    } else {
      assert hosts[..j] == hosts;
    }
  }

  /** A host whose port `int()` cannot read ends the run: the hosts before
      it have run, and none after it is contacted. */
  lemma CrashAbortsRest(hosts: seq<HostRecord>, i: nat, commands: seq<string>, t: Transport)
    requires i < |hosts|
    requires RunHosts(hosts[..i], commands, t).crash.None?
    requires HostRun(hosts[i], commands, t).Failure?
    ensures RunHosts(hosts, commands, t)
         == HostsOutcome(RunHosts(hosts[..i], commands, t).events, Some(HostRun(hosts[i], commands, t).error))
  {
    assert hosts[..i + 1][..i] == hosts[..i];
    CrashStopsHosts(hosts, i + 1, commands, t);
  }

  /** A step on two traces that have not crashed runs the same host. */
  lemma HostStepShift(prefix: seq<Event>, prev: HostsOutcome, details: HostRecord, commands: seq<string>, t: Transport)
    ensures HostStep(HostsOutcome(prefix + prev.events, prev.crash), details, commands, t)
         == HostsOutcome(prefix + HostStep(prev, details, commands, t).events, HostStep(prev, details, commands, t).crash)
  {
    if prev.crash.None? && HostRun(details, commands, t).Success? {
      assert prefix + prev.events + HostRun(details, commands, t).value
          == prefix + (prev.events + HostRun(details, commands, t).value);
    }
  }

  /** Failures are isolated per host: once the hosts of `a` have run
      without a crash, the hosts of `b` produce the same trace as if they
      ran alone, whatever went wrong on `a`. */
  lemma {:induction false} HostsAppend(a: seq<HostRecord>, b: seq<HostRecord>, commands: seq<string>, t: Transport)
    requires RunHosts(a, commands, t).crash.None?
    ensures RunHosts(a + b, commands, t)
         == HostsOutcome(RunHosts(a, commands, t).events + RunHosts(b, commands, t).events, RunHosts(b, commands, t).crash)
    decreases |b|
  {
    if b == [] {
      assert a + b == a;
    } else {
      var b' := b[..|b| - 1];
      assert (a + b)[..|a + b| - 1] == a + b';
      assert (a + b)[|a + b| - 1] == b[|b| - 1];
      HostsAppend(a, b', commands, t);
      HostStepShift(RunHosts(a, commands, t).events, RunHosts(b', commands, t), b[|b| - 1], commands, t);
    }
  }

  /** A run without a crash visits every host exactly once, in inventory
      order, and closes each connection. */
  lemma {:induction false} HostsClosedInOrder(hosts: seq<HostRecord>, commands: seq<string>, t: Transport)
    requires RunHosts(hosts, commands, t).crash.None?
    ensures ClosedHosts(RunHosts(hosts, commands, t).events) == HostNames(hosts)
    decreases |hosts|
  {
    if hosts != [] {
      var front := hosts[..|hosts| - 1];
      var last := hosts[|hosts| - 1];
      var prev := RunHosts(front, commands, t);
      assert RunHosts(hosts, commands, t) == HostStep(prev, last, commands, t);
      HostsClosedInOrder(front, commands, t);
      var es := HostRun(last, commands, t).value;
      ClosedHostsAppend(prev.events, es);
      HostClosedOnce(last, commands, t);
    }
  }

  // ---------------------------------------------------------- main

  /** Where the commands come from: `-c` with its arguments, or `-f` with a
      path and the file's lines (`None` when it cannot be opened). */
  datatype CommandSource =
    | Inline(commands: seq<string>)
    | CommandFile(path: string, contents: Option<seq<string>>)

  /** How a run ends. */
  datatype RunStatus =
    | NoCommands              // "No commands to execute."
    | CommandsFileNotFound    // `open` raises on the command file
    | HostsFileMissing        // `parse_hosts_file` exits
    | NoHosts                 // "No valid hosts found in the file."
    | Completed
    | Crashed(crash: Crash)

  /** The warnings of the inventory parser, the hosts' trace, and how the
      run ended. */
  datatype RunResult = RunResult(warnings: seq<Warning>, events: seq<Event>, status: RunStatus)

  /** The commands to run, or `None` when the command file cannot be
      opened. An empty path is falsy, so `args.command` (absent, `None`) is
      used instead, which reads as no commands. */
  function CommandsToRun(source: CommandSource): Option<seq<string>> {
    match source
    case Inline(commands) => Some(commands)
    case CommandFile(path, contents) =>
      if path == "" then Some([])
      else if contents.None? then None
      else Some(CommandsFromFile(contents.value))
  }

  /** `main` after argument parsing: commands first, then the inventory,
      then every host in order. */
  function Run(source: CommandSource, hostsFile: Option<seq<string>>, normKey: string -> string, t: Transport): RunResult {
    match CommandsToRun(source)
    case None => RunResult([], [], CommandsFileNotFound)
    case Some(commands) =>
      if commands == [] then RunResult([], [], NoCommands)
      else if hostsFile.None? then RunResult([], [], HostsFileMissing)
      else
        var inventory := ParseLines(hostsFile.value, 1, normKey);
        if inventory.hosts == [] then RunResult(inventory.warnings, [], NoHosts)
        else
          var o := RunHosts(inventory.hosts, commands, t);
          RunResult(inventory.warnings, o.events, if o.crash.Some? then Crashed(o.crash.value) else Completed)
  }

  /** With no commands the run stops before the inventory is read: the
      result does not depend on the hosts file or on the network. */
  lemma NoCommandsStopsFirst(source: CommandSource, file1: Option<seq<string>>, file2: Option<seq<string>>,
                             normKey: string -> string, t1: Transport, t2: Transport)
    requires CommandsToRun(source) == Some([])
    ensures Run(source, file1, normKey, t1) == Run(source, file2, normKey, t2) == RunResult([], [], NoCommands)
  {
  }

  /** When the inventory has no hosts, no host is contacted. */
  lemma NoHostsNoContact(source: CommandSource, hostsFile: Option<seq<string>>, normKey: string -> string, t: Transport)
    requires Run(source, hostsFile, normKey, t).status == NoHosts
    ensures Run(source, hostsFile, normKey, t).events == []
    ensures hostsFile.Some? && ParseLines(hostsFile.value, 1, normKey).hosts == []
  {
  }

  /** A completed run visits the parsed hosts once each, in inventory
      order. */
  lemma CompletedRunVisitsHostsInOrder(source: CommandSource, hostsFile: Option<seq<string>>, normKey: string -> string, t: Transport)
    requires Run(source, hostsFile, normKey, t).status == Completed
    ensures hostsFile.Some?
    ensures ClosedHosts(Run(source, hostsFile, normKey, t).events) == HostNames(ParseLines(hostsFile.value, 1, normKey).hosts)
  {
    var commands := CommandsToRun(source).value;
    HostsClosedInOrder(ParseLines(hostsFile.value, 1, normKey).hosts, commands, t);
  }

  // -------------------------------------------------------- methods

  /** `for command in commands` on a connected host, until a command
      raises: the events it reports and the fault that ended it, if any. */
  method RunCommandLoop(host: Option<string>, params: ConnectParams, commands: seq<string>, t: Transport)
    returns (log: seq<Event>, fault: Option<Fault>)
    ensures CommandsOutcome(log, fault) == RunCommands(host, params, commands, t)
  {
    log, fault := [], None;
    var j := 0;
    while j < |commands| && fault.None?
      invariant 0 <= j <= |commands|
      invariant RunCommands(host, params, commands[..j], t) == CommandsOutcome(log, fault)
    {
      CommandsSnoc(host, params, commands, j, t);
      var command := commands[j];
      log := log + [Executing(command)];
      var reply := t.exec(params, commands[..j], command);
      if reply.Failure? {
        assert log + Reported(host, command, reply) == log;
        fault := Some(reply.error);
      } else {
        var output := Strip(reply.value.stdout);
        var error := Strip(reply.value.stderr);
        log := log + Classify(host, command, output, error);
      }
      j := j + 1;
    }
    if fault.Some? {
      FaultStopsCommands(host, params, commands, j, t);
    } else {
      assert commands[..j] == commands;
    }
  }

  /** `execute_commands_on_host`'s `try` block: builds `connect_params`
      step by step, returns early when the key file is missing or no
      method applies, connects, and runs the commands until one raises. */
  method AttemptSession(s: Settings, commands: seq<string>, t: Transport) returns (events: seq<Event>)
    ensures events == Attempt(s, commands, t)
  {
    var params := ConnectParams(s.ip, s.port, s.user, ConnectTimeout, NoCredential, []);
    match s.auth {
      case KeyAuth(path) =>
        if !t.keyFileExists(path) {
          return [KeyFileMissing(s.host, path)];
        }
        var loadFault := t.loadKey(path);
        if loadFault.Some? {
          return [Report(s.host, loadFault.value)];
        }
        params := params.(credential := PrivateKey(path));
        params := params.(disabledPubkeys := DisabledPubkeys);
      case PasswordAuth(password) =>
        params := params.(credential := Password(password));
      case NoAuth =>
        return [NoAuthMethod(s.host)];
    }
    var refused := t.connect(params);
    if refused.Some? {
      return [Report(s.host, refused.value)];
    }
    var log, fault := RunCommandLoop(s.host, params, commands, t);
    events := [Connected(s.host)] + log + FaultEvents(s.host, fault);
  }

  /** `execute_commands_on_host`: reads the settings (crashing on a bad
      port before anything is printed), announces the connection, runs the
      `try` block and always closes. */
  method ExecuteCommandsOnHost(details: HostRecord, commands: seq<string>, t: Transport)
    returns (r: Result<seq<Event>, Crash>)
    ensures r == HostRun(details, commands, t)
  {
    var host := Get(details, "host");
    var ip := Get(details, "ip");
    var port := DefaultPort;
    if "port" in details {
      var parsed := ParseInt(details["port"]);
      if parsed.None? {
        return Failure(InvalidPort(details["port"]));
      }
      port := parsed.value;
    }
    var user := DefaultUser;
    if "user" in details {
      user := details["user"];
    }
    var auth := ChooseAuth(Get(details, "password"), Get(details, "key"));
    var s := Settings(host, ip, port, user, auth);
    var events := [Connecting(host, ip, port, MethodName(auth))];
    var attempt := AttemptSession(s, commands, t);
    events := events + attempt + [Closed(host)];
    return Success(events);
  }

  /** `main`'s loop over the hosts, which a crash on a port ends. */
  method RunHostLoop(hosts: seq<HostRecord>, commands: seq<string>, t: Transport)
    returns (events: seq<Event>, crash: Option<Crash>)
    ensures HostsOutcome(events, crash) == RunHosts(hosts, commands, t)
  {
    events, crash := [], None;
    for i := 0 to |hosts|
      invariant RunHosts(hosts[..i], commands, t) == HostsOutcome(events, None)
    {
      HostsSnoc(hosts, i, commands, t);
      var outcome := ExecuteCommandsOnHost(hosts[i], commands, t);
      if outcome.Failure? {
        crash := Some(outcome.error);
        CrashStopsHosts(hosts, i + 1, commands, t);
        return;
      }
      events := events + outcome.value;
    }
    assert hosts[..|hosts|] == hosts;
  }

  /** `main` after argument parsing. */
  method RunCommandRunner(source: CommandSource, hostsFile: Option<seq<string>>, normKey: string -> string, t: Transport)
    returns (r: RunResult)
    ensures r == Run(source, hostsFile, normKey, t)
  {
    var commands: seq<string>;
    match source {
      case Inline(cmds) =>
        commands := cmds;
      case CommandFile(path, contents) =>
        if path == "" {
          commands := [];
        } else if contents.None? {
          return RunResult([], [], CommandsFileNotFound);
        } else {
          commands := CommandsFromFile(contents.value);
        }
    }
    if commands == [] {
      return RunResult([], [], NoCommands);
    }
    var parsed := ParseHostsFile(hostsFile, normKey);
    if parsed.Failure? {
      return RunResult([], [], HostsFileMissing);
    }
    var inventory := parsed.value;
    if inventory.hosts == [] {
      return RunResult(inventory.warnings, [], NoHosts);
    }
    var events, crash := RunHostLoop(inventory.hosts, commands, t);
    if crash.Some? {
      return RunResult(inventory.warnings, events, Crashed(crash.value));
    }
    return RunResult(inventory.warnings, events, Completed);
  }
}
