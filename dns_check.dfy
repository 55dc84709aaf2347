/** services/check_dns_ubuntu.py: whether Bind DNS runs on a remote host. */
module DnsCheck {
  import opened Wrappers
  import opened PyValues
  import opened PyText
  import opened HostInfo
  import opened Ssh
  import opened ServiceProbe

  /** The Bind service as the check asks about it. */
  const Bind: Service := Service("Bind DNS", "systemctl is-active bind9", "service bind9 status")

  /** `check_dns_running(host_info, username, certificate_path)`. */
  method CheckDnsRunning(client: SshClient, hostInfo: PyValue, username: string := "root",
                         certificatePath: Option<string> := None) returns (r: ProbeResult)
    modifies client
    ensures r == Probe(hostInfo, username, certificatePath, client.outcome, client.reply, Bind)
    ensures client.log ==
            old(client.log) + ProbeCalls(hostInfo, username, certificatePath, client.outcome, client.reply, Bind)
    ensures DecodeHostInfo(hostInfo).Decoded? && CertificateGiven(certificatePath) ==> !client.connected
    ensures !(DecodeHostInfo(hostInfo).Decoded? && CertificateGiven(certificatePath)) ==>
              client.connected == old(client.connected)
  {
    r := Check(client, hostInfo, username, certificatePath, Bind);
  }

  /** The lines a connected Bind check returns, and the commands behind each. */
  lemma BindOutcomes(host: PyValue, port: PyValue, username: string, certificatePath: Option<string>,
                     reply: string -> string)
    requires CertificateGiven(certificatePath)
    ensures var st := Classify(certificatePath, Connected, reply, Bind);
            var cmds := Commands(Calls(host, port, username, certificatePath, Connected, reply, Bind));
            (Strip(reply("systemctl is-active bind9")) == "active" ==>
               Message(Bind, st) == "Bind DNS is running" &&
               cmds == ["systemctl is-active bind9"]) &&
            (Strip(reply("systemctl is-active bind9")) != "active" ==>
               cmds == ["systemctl is-active bind9", "service bind9 status"] &&
               (LegacyRunning(reply, Bind) ==> Message(Bind, st) == "Bind DNS is running (SysV init)") &&
               (!LegacyRunning(reply, Bind) ==> Message(Bind, st) == "Bind DNS is NOT running (or not found)"))
  {
    var calls := Calls(host, port, username, certificatePath, Connected, reply, Bind);
    assert calls[1..] == RemoteCalls(reply, Bind);
    RemoteCommands(reply, Bind);
    BindMessages();
  }

  /** The three texts a connected Bind check can report. */
  lemma BindMessages()
    ensures Message(Bind, Running) == "Bind DNS is running"
    ensures Message(Bind, RunningSysV) == "Bind DNS is running (SysV init)"
    ensures Message(Bind, NotRunning) == "Bind DNS is NOT running (or not found)"
  {
    BindRunningMessage();
    BindSysVMessage();
    BindNotRunningMessage();
  }

  lemma BindRunningMessage()
    ensures Message(Bind, Running) == "Bind DNS is running"
  {
  }

  lemma BindSysVMessage()
    ensures Message(Bind, RunningSysV) == "Bind DNS is running (SysV init)"
  {
  }

  lemma BindNotRunningMessage()
    ensures Message(Bind, NotRunning) == "Bind DNS is NOT running (or not found)"
  {
    assert Message(Bind, NotRunning) == "Bind DNS" + " is NOT running (or not found)";
  }

  /** A bare host name is reported on the default port. */
  lemma BareHostOnPort22(name: string, username: string, certificatePath: Option<string>,
                         outcome: ConnectOutcome, reply: string -> string)
    ensures var r := Probe(Str(name), username, certificatePath, outcome, reply, Bind);
            r.Returned? && StartsWith(r.text, name + ":22: ")
  {
    var m := Message(Bind, Classify(certificatePath, outcome, reply, Bind));
    assert Show(Int(22)) == "22";
    assert Prefix(Str(name), Int(22)) == name + ":22: ";
    assert (name + ":22: " + m)[..|name + ":22: "|] == name + ":22: ";
  }
}
