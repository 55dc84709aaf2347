/** The check ladder both remote service checks follow
    (services/check_dns_ubuntu.py and check_mysql_ubuntu.py): decode the host,
    require a key file, connect, ask systemd, fall back to the SysV init
    script, and render one line of text. The two checks differ only in the
    `Service` they probe. */
module ServiceProbe {
  import opened Wrappers
  import opened PyValues
  import opened PyText
  import opened HostInfo
  import opened Ssh

  /** Seconds `client.connect` waits before giving up. */
  const ConnectTimeout: int := 10

  /** What a check asks the remote host, and how it names the service. */
  datatype Service = Service(displayName: string, modernQuery: string, legacyQuery: string)

  /** The outcome a check reports. */
  datatype Status =
    | Running
    | RunningSysV
    | NotRunning
    | AuthenticationFailed
    | ConnectionError(msg: string)
    | SshError(msg: string)
    | CertificateRequired

  /** What a check call does: raise the decoder's `ValueError`, or return a line. */
  datatype ProbeResult = Raised(error: DecodeError) | Returned(text: string)

  /** `if certificate_path:`; `None` and the empty string are falsy. */
  predicate CertificateGiven(certificatePath: Option<string>) {
    certificatePath.Some? && certificatePath.value != ""
  }

  /** The systemd answer that counts as running, compared after stripping. */
  predicate ModernActive(reply: string -> string, svc: Service) {
    Strip(reply(svc.modernQuery)) == "active"
  }

  /** The init-script answer that counts as running. */
  predicate LegacyRunning(reply: string -> string, svc: Service) {
    ContainsIgnoreCase(Strip(reply(svc.legacyQuery)), "is running")
  }

  /** The decision ladder, in the order the code takes it. */
  function Classify(certificatePath: Option<string>, outcome: ConnectOutcome,
                    reply: string -> string, svc: Service): Status
  {
    if !CertificateGiven(certificatePath) then CertificateRequired
    else match outcome
      case AuthFailure => AuthenticationFailed
      case ResolveOrTimeout(m) => ConnectionError(m)
      case OtherFailure(m) => SshError(m)
      case Connected => RemoteStatus(reply, svc)
  }

  /** The ladder once connected: systemd first, then the init script. */
  function RemoteStatus(reply: string -> string, svc: Service): Status {
    if ModernActive(reply, svc) then Running
    else if LegacyRunning(reply, svc) then RunningSysV
    else NotRunning
  }

  /** The text after `"<host>:<port>: "` for each outcome. */
  function Message(svc: Service, st: Status): string {
    match st
    case Running => svc.displayName + " is running"
    case RunningSysV => svc.displayName + " is running (SysV init)"
    case NotRunning => svc.displayName + " is NOT running (or not found)"
    case AuthenticationFailed => "Authentication failed (certificate)"
    case ConnectionError(m) => "Connection error: " + m
    case SshError(m) => "SSH error: " + m
    case CertificateRequired => "Certificate path is required"
  }

  /** `f"{host}:{port}: "`. */
  function Prefix(host: PyValue, port: PyValue): string {
    Show(host) + ":" + Show(port) + ": "
  }

  /** The calls a check makes on its client once the host is decoded. */
  function Calls(host: PyValue, port: PyValue, username: string, certificatePath: Option<string>,
                 outcome: ConnectOutcome, reply: string -> string, svc: Service): seq<Call>
  {
    if !CertificateGiven(certificatePath) then []
    else
      [Call.Connect(host, port, username, certificatePath.value, ConnectTimeout)] +
      if outcome.Connected? then RemoteCalls(reply, svc) else []
  }

  /** The calls made once connected: one or two commands, then `close()`. */
  function RemoteCalls(reply: string -> string, svc: Service): seq<Call> {
    if ModernActive(reply, svc) then [Exec(svc.modernQuery), Call.Close]
    else [Exec(svc.modernQuery), Exec(svc.legacyQuery), Call.Close]
  }

  /** What one check call returns. */
  function Probe(hostInfo: PyValue, username: string, certificatePath: Option<string>,
                 outcome: ConnectOutcome, reply: string -> string, svc: Service): ProbeResult
  {
    match DecodeHostInfo(hostInfo)
    case Invalid(e) => Raised(e)
    case Decoded(host, port) =>
      Returned(Prefix(host, port) + Message(svc, Classify(certificatePath, outcome, reply, svc)))
  }

  /** The calls one check call makes on its client. */
  function ProbeCalls(hostInfo: PyValue, username: string, certificatePath: Option<string>,
                      outcome: ConnectOutcome, reply: string -> string, svc: Service): seq<Call>
  {
    match DecodeHostInfo(hostInfo)
    case Invalid(_) => []
    case Decoded(host, port) => Calls(host, port, username, certificatePath, outcome, reply, svc)
  }

  /** The commands among `calls`, in order. */
  function Commands(calls: seq<Call>): (r: seq<string>)
    ensures |r| <= |calls|
    ensures forall c :: c in r <==> Exec(c) in calls
  {
    if calls == [] then []
    else (if calls[0].Exec? then [calls[0].command] else []) + Commands(calls[1..])
  }

  /** A check on the client: the method counterpart of `Probe` and `ProbeCalls`. */
  method Check(client: SshClient, hostInfo: PyValue, username: string,
               certificatePath: Option<string>, svc: Service) returns (r: ProbeResult)
    modifies client
    ensures r == Probe(hostInfo, username, certificatePath, client.outcome, client.reply, svc)
    ensures client.log ==
            old(client.log) + ProbeCalls(hostInfo, username, certificatePath, client.outcome, client.reply, svc)
    // a session that was opened is closed, or its connect failed
    ensures DecodeHostInfo(hostInfo).Decoded? && CertificateGiven(certificatePath) ==> !client.connected
    // without a decodable host or a key the client is not touched
    ensures !(DecodeHostInfo(hostInfo).Decoded? && CertificateGiven(certificatePath)) ==>
              client.connected == old(client.connected)
  {
    var decoded := DecodeHostInfo(hostInfo);
    if decoded.Invalid? {
      return Raised(decoded.error);
    }
    var text := Session(client, decoded.host, decoded.port, username, certificatePath, svc);
    r := Returned(text);
  }

  /** A check of a decoded host: refuse without a certificate, connect, and
      report the connection failure or the remote status. */
  method Session(client: SshClient, host: PyValue, port: PyValue, username: string,
                 certificatePath: Option<string>, svc: Service) returns (text: string)
    modifies client
    ensures text == Prefix(host, port) + Message(svc, Classify(certificatePath, client.outcome, client.reply, svc))
    ensures client.log ==
            old(client.log) + Calls(host, port, username, certificatePath, client.outcome, client.reply, svc)
    ensures CertificateGiven(certificatePath) ==> !client.connected
    ensures !CertificateGiven(certificatePath) ==> client.connected == old(client.connected)
  {
    var prefix := Prefix(host, port);
    if !CertificateGiven(certificatePath) {
      return prefix + "Certificate path is required";
    }
    ghost var log0 := client.log;
    ghost var c0 := Call.Connect(host, port, username, certificatePath.value, ConnectTimeout);
    var res := client.Connect(host, port, username, certificatePath.value, ConnectTimeout);
    assert client.log == log0 + [c0];
    if !res.Connected? {
      assert Calls(host, port, username, certificatePath, client.outcome, client.reply, svc) == [c0];
    }
    match res {
      case AuthFailure =>
        return prefix + "Authentication failed (certificate)";
      case ResolveOrTimeout(m) =>
        return prefix + ("Connection error: " + m);
      case OtherFailure(m) =>
        return prefix + ("SSH error: " + m);
      case Connected =>
    }
    text := QueryConnected(client, prefix, svc);
  }

  /** The connected part of a check: ask systemd; if it does not answer
      "active", ask the init script. The session is closed before returning. */
  method QueryConnected(client: SshClient, prefix: string, svc: Service) returns (text: string)
    requires client.connected
    modifies client
    ensures text == prefix + Message(svc, RemoteStatus(client.reply, svc))
    ensures client.log == old(client.log) + RemoteCalls(client.reply, svc)
    ensures !client.connected
  {
    ghost var log0 := client.log;
    var status := client.ExecCommand(svc.modernQuery);
    ghost var log1 := client.log;
    status := Strip(status);
    if status == "active" {
      client.Close();
      assert client.log == log0 + [Exec(svc.modernQuery), Call.Close] by {
        assert client.log == log1 + [Call.Close];
      }
      return prefix + (svc.displayName + " is running");
    }
    assert !ModernActive(client.reply, svc);
    text := QueryLegacy(client, prefix, svc);
    assert client.log == log0 + [Exec(svc.modernQuery), Exec(svc.legacyQuery), Call.Close] by {
      assert client.log == log1 + [Exec(svc.legacyQuery), Call.Close];
    }
  }

  /** The fallback: ask the init script, close, and report. */
  method QueryLegacy(client: SshClient, prefix: string, svc: Service) returns (text: string)
    requires client.connected
    modifies client
    ensures text == prefix + Message(svc, if LegacyRunning(client.reply, svc) then RunningSysV else NotRunning)
    ensures client.log == old(client.log) + [Exec(svc.legacyQuery), Call.Close]
    ensures !client.connected
  {
    ghost var log0 := client.log;
    var altStatus := client.ExecCommand(svc.legacyQuery);
    ghost var log1 := client.log;
    altStatus := Strip(altStatus);
    if ContainsIgnoreCase(altStatus, "is running") {
      client.Close();
      assert client.log == log1 + [Call.Close];
      return prefix + (svc.displayName + " is running (SysV init)");
    }
    client.Close();
    assert client.log == log1 + [Call.Close];
    text := prefix + (svc.displayName + " is NOT running (or not found)");
  }

  // ---------------------------------------------------------------------
  // Properties of the ladder

  /** A host reference the decoder refuses raises before any call is made. */
  lemma InvalidHostMakesNoCalls(hostInfo: PyValue, username: string, certificatePath: Option<string>,
                                outcome: ConnectOutcome, reply: string -> string, svc: Service)
    requires DecodeHostInfo(hostInfo).Invalid?
    ensures Probe(hostInfo, username, certificatePath, outcome, reply, svc).Raised?
    ensures ProbeCalls(hostInfo, username, certificatePath, outcome, reply, svc) == []
  {
  }

  /** Every line a check returns starts with the decoded `"<host>:<port>: "`. */
  lemma ReturnedLineHasHostPrefix(hostInfo: PyValue, username: string, certificatePath: Option<string>,
                                  outcome: ConnectOutcome, reply: string -> string, svc: Service)
    requires DecodeHostInfo(hostInfo).Decoded?
    ensures var d := DecodeHostInfo(hostInfo);
            var r := Probe(hostInfo, username, certificatePath, outcome, reply, svc);
            r.Returned? && StartsWith(r.text, Prefix(d.host, d.port))
  {
    var d := DecodeHostInfo(hostInfo);
    var p := Prefix(d.host, d.port);
    var m := Message(svc, Classify(certificatePath, outcome, reply, svc));
    assert (p + m)[..|p|] == p;
  }

  /** Without a key file the check answers at once and never touches the client. */
  lemma NoCertificateNoConnection(host: PyValue, port: PyValue, username: string, certificatePath: Option<string>,
                                  outcome: ConnectOutcome, reply: string -> string, svc: Service)
    requires !CertificateGiven(certificatePath)
    ensures Classify(certificatePath, outcome, reply, svc) == CertificateRequired
    ensures Message(svc, CertificateRequired) == "Certificate path is required"
    ensures Calls(host, port, username, certificatePath, outcome, reply, svc) == []
  {
  }

  /** A failed connection is classified in clause order, and no command runs
      and `close()` is not called afterwards. */
  lemma ConnectFailureRunsNoCommand(host: PyValue, port: PyValue, username: string, certificatePath: Option<string>,
                                    outcome: ConnectOutcome, reply: string -> string, svc: Service)
    requires CertificateGiven(certificatePath) && !outcome.Connected?
    ensures var st := Classify(certificatePath, outcome, reply, svc);
            (outcome.AuthFailure? ==> Message(svc, st) == "Authentication failed (certificate)") &&
            (outcome.ResolveOrTimeout? ==> Message(svc, st) == "Connection error: " + outcome.msg) &&
            (outcome.OtherFailure? ==> Message(svc, st) == "SSH error: " + outcome.msg)
    ensures Calls(host, port, username, certificatePath, outcome, reply, svc) ==
            [Call.Connect(host, port, username, certificatePath.value, ConnectTimeout)]
    ensures Commands(Calls(host, port, username, certificatePath, outcome, reply, svc)) == []
  {
    var calls := Calls(host, port, username, certificatePath, outcome, reply, svc);
    assert Commands(calls) == Commands(calls[1..]);
  }

  /** The commands run once connected: systemd's query, then the init
      script's exactly when systemd did not answer "active". */
  lemma {:induction false} RemoteCommands(reply: string -> string, svc: Service)
    ensures Commands(RemoteCalls(reply, svc)) ==
            if ModernActive(reply, svc) then [svc.modernQuery] else [svc.modernQuery, svc.legacyQuery]
  {
    var calls := RemoteCalls(reply, svc);
    var n := |calls|;
    assert Commands(calls[n - 1..]) == [] by {
      assert calls[n - 1..][1..] == [];
    }
    if ModernActive(reply, svc) {
      assert calls[1..] == calls[n - 1..];
    } else {
      assert calls[2..] == calls[n - 1..];
      assert Commands(calls[1..]) == [svc.legacyQuery] + Commands(calls[2..]);
    }
  }

  /** After a successful connection at most two commands run, systemd is
      asked first, the init script is asked exactly when systemd did not say
      "active", and `close()` is the last call, made once. */
  lemma ConnectedCallOrder(host: PyValue, port: PyValue, username: string, certificatePath: Option<string>,
                           outcome: ConnectOutcome, reply: string -> string, svc: Service)
    requires CertificateGiven(certificatePath) && outcome.Connected?
    ensures var calls := Calls(host, port, username, certificatePath, outcome, reply, svc);
            var cmds := Commands(calls);
            1 <= |cmds| <= 2 && cmds[0] == svc.modernQuery &&
            (|cmds| == 2 <==> !ModernActive(reply, svc)) &&
            (|cmds| == 2 ==> cmds[1] == svc.legacyQuery) &&
            calls[0].Connect? && calls[|calls| - 1] == Call.Close &&
            Call.Close !in calls[..|calls| - 1]
  {
    var calls := Calls(host, port, username, certificatePath, outcome, reply, svc);
    var rest := RemoteCalls(reply, svc);
    assert calls == [calls[0]] + rest;
    assert calls[1..] == rest;
    RemoteCommands(reply, svc);
    assert calls[..|calls| - 1] == [calls[0]] + rest[..|rest| - 1];
  }

  /** Which outcome a connected check reports, read off the commands it ran:
      "running" needs only the systemd query; the init-script query decides
      between "(SysV init)" and "NOT running". */
  lemma ConnectedStatus(certificatePath: Option<string>, outcome: ConnectOutcome,
                        reply: string -> string, svc: Service)
    requires CertificateGiven(certificatePath) && outcome.Connected?
    ensures var st := Classify(certificatePath, outcome, reply, svc);
            (st == Running <==> Strip(reply(svc.modernQuery)) == "active") &&
            (st == RunningSysV <==>
               (!ModernActive(reply, svc) &&
                exists i :: 0 <= i <= |Strip(reply(svc.legacyQuery))| - 10 &&
                  MatchesAt(Strip(reply(svc.legacyQuery)), "is running", i))) &&
            (st.Running? || st.RunningSysV? || st.NotRunning?)
  {
    ContainsIgnoreCaseSpec(Strip(reply(svc.legacyQuery)), "is running", 0);
  }

  /** The systemd answer is compared after stripping, so `"active"` with
      surrounding whitespace (the usual trailing newline) still means running. */
  lemma PaddedActiveIsRunning(certificatePath: Option<string>, outcome: ConnectOutcome,
                              reply: string -> string, svc: Service, pre: string, post: string)
    requires CertificateGiven(certificatePath) && outcome.Connected?
    requires AllSpace(pre) && AllSpace(post) && reply(svc.modernQuery) == pre + "active" + post
    ensures Classify(certificatePath, outcome, reply, svc) == Running
  {
    StripPadded(pre, "active", post);
  }
}
