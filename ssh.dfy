/** The secure-shell client the two service checks drive, as an object with
    a log of the calls made on it. The remote end is given, not simulated:
    how it answers a connection attempt and what each command prints. */
module Ssh {
  import opened PyValues

  /** How `client.connect(...)` ends: it returns, or raises one of the
      exception families the checks tell apart. */
  datatype ConnectOutcome =
    | Connected
    | AuthFailure                    // paramiko.AuthenticationException
    | ResolveOrTimeout(msg: string)  // socket.gaierror or TimeoutError, with str(e)
    | OtherFailure(msg: string)      // any other exception, with str(e)

  /** One call made on a client. */
  datatype Call =
    | Connect(host: PyValue, port: PyValue, username: string, keyFilename: string, timeout: int)
    | Exec(command: string)
    | Close

  class SshClient {
    /** What every connection attempt on this client yields. */
    const outcome: ConnectOutcome
    /** The decoded standard output of each remote command. */
    const reply: string -> string
    /** Every call made on the client so far, oldest first. */
    var log: seq<Call>
    var connected: bool

    constructor (outcome: ConnectOutcome, reply: string -> string)
      ensures this.outcome == outcome && this.reply == reply
      ensures log == [] && !connected
    {
      this.outcome := outcome;
      this.reply := reply;
      log := [];
      connected := false;
    }

    /** `client.connect(host, port=port, username=..., key_filename=..., timeout=...)`. */
    method Connect(host: PyValue, port: PyValue, username: string, keyFilename: string, timeout: int)
      returns (res: ConnectOutcome)
      modifies this
      ensures res == outcome
      ensures connected <==> outcome.Connected?
      ensures log == old(log) + [Call.Connect(host, port, username, keyFilename, timeout)]
    {
      res := outcome;
      connected := outcome.Connected?;
      log := log + [Call.Connect(host, port, username, keyFilename, timeout)];
    }

    /** `client.exec_command(command)` followed by reading and decoding stdout. */
    method ExecCommand(command: string) returns (stdout: string)
      requires connected
      modifies this`log
      ensures stdout == reply(command)
      ensures log == old(log) + [Exec(command)]
    {
      stdout := reply(command);
      log := log + [Exec(command)];
    }

    /** `client.close()`. */
    method Close()
      modifies this
      ensures !connected
      ensures log == old(log) + [Call.Close]
    {
      connected := false;
      log := log + [Call.Close];
    }
  }
}
