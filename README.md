# Operator scripts: decision logic, modelled in Dafny

This project models the decision logic of a small collection of operator
scripts:

- the host-spec decoder `decode_host_info` (`utils.py`): a bare host gets
  port 22; a pair is split; anything else raises `ValueError`;
- the two remote service checks, `check_dns_running`
  (`services/check_dns_ubuntu.py`) and `check_db_running`
  (`check_mysql_ubuntu.py`). Each decodes the host and requires a key file.
  It then connects over SSH and asks `systemctl is-active`. If that is not
  `active`, it falls back to the SysV `service ... status` script. It
  returns one line `"<host>:<port>: <outcome>"`;
- the prefix renamer `rename_files` (`rename_files.py`);
- the copy-with-overwrite policy of `copy_files` (`files/copy_files.py`).

Layout, one module per file:

| file | module | models |
|---|---|---|
| `host_info.dfy` | `HostInfo` | `utils.py` |
| `service_probe.dfy` | `ServiceProbe` | the check ladder both SSH scripts share |
| `dns_check.dfy` | `DnsCheck` | `services/check_dns_ubuntu.py` (`Bind` service) |
| `db_check.dfy` | `DbCheck` | `check_mysql_ubuntu.py` (`DbService(db_type)`) |
| `rename_files.dfy` | `RenameFiles` | `rename_files.py` |
| `copy_files.dfy` | `CopyFiles` | `files/copy_files.py` |
| `ssh.dfy` | `Ssh` | the SSH client the checks drive, with a call log |
| `py_values.dfy` | `PyValues` | Python values the decoder inspects; `str()`/`repr()` for f-strings |
| `py_text.dfy` | `PyText` | `str.strip`, `str.capitalize`, `str.startswith`, ignore-case search |
| `wrappers.dfy` | `Wrappers` | `Option` |

How the model is built:

- The two SSH scripts hold the same ladder, written out twice. The model
  writes it once, in `ServiceProbe`. Each check passes in its `Service`:
  the label, the systemd query and the init-script query.
- Each check is written two ways:
  - as pure functions: `Probe` gives the returned line or the decoder's
    error, and `ProbeCalls` gives the calls made on the client;
  - as a method (`ServiceProbe.Check`) that drives an `Ssh.SshClient`
    object. Its postconditions tie it to those two functions.
- The remote end is a parameter, not simulated. The client holds two
  constants: what a connection attempt yields (`Connected`, `AuthFailure`,
  `ResolveOrTimeout(msg)`, `OtherFailure(msg)`), and the decoded stdout of
  every command.
- `rename_files` runs over a `Directory` object. The directory maps each
  entry name to the file it names.
- `copy_files` runs over a `DestTree` object and a source map. Both trees
  are keyed by the path relative to the tree's root, so "the destination is
  `dest_dir` joined with the relative path" is the same key on both sides.
- The order of `os.listdir` and `os.walk` is a parameter of the methods.
- SHA-256 is an uninterpreted `digest` function. `calculate_file_hash` is
  `FileHash`, which is `None` exactly when the file cannot be read.

Points where the code's behaviour is easy to misread:

- The port is returned as given: neither converted to `int` nor checked to
  be positive. A pair's elements come back as they were given.
- `certificate_path` is tested for truthiness, so an empty string counts as
  missing, just like `None`.
- Nothing is closed when `connect` fails. The outer `except Exception` path
  also returns without closing. So the model claims `close()` only on the
  three normal returns after a successful connection.
- Without a key no password authentication is tried, whatever the comment
  beside that branch suggests: the check returns "Certificate path is
  required".
- `os.walk` on a missing source directory yields nothing and raises
  nothing. So `copy_files` copies nothing and prints nothing; the
  "Source directory ... not found" branch is not reached that way. The
  model's counterpart is an empty source tree and an empty walk.

## Model

| member | source | states |
|---|---|---|
| HostInfo.DecodeHostInfo | utils.py:23-33 | a 2-element tuple or list decodes to its elements in order, unconverted; any other length raises (WrongLength); a string `s` decodes to `(s, 22)`; any other type raises (WrongType); success exactly for those two shapes |
| HostInfo.DecodeIdempotent | utils.py:23-33 | decoding the returned `(host, port)` tuple gives the same pair again |
| HostInfo.TupleAndListAgree | utils.py:23-26 | a tuple and a list with the same elements are accepted or refused alike, and decode to the same pair |
| PyText.StripLeft | services/check_dns_ubuntu.py:70 | drops leading whitespace; `StripLeftSpec` states what it returns |
| PyText.StripRight | services/check_dns_ubuntu.py:70 | drops trailing whitespace; `StripRightSpec` states what it returns |
| PyText.Strip | services/check_dns_ubuntu.py:70 | `str.strip()`: the right strip of the left strip; `StripSpec` and `StripPadded` state what it returns |
| PyText.StripLeftSpec | services/check_dns_ubuntu.py:70 | the left strip drops a prefix made only of whitespace and stops at the first non-whitespace character |
| PyText.StripRightSpec | services/check_dns_ubuntu.py:70 | the right strip drops a suffix made only of whitespace and stops at the last non-whitespace character |
| PyText.StripSpec | services/check_dns_ubuntu.py:70 | `strip()` returns a slice of the input whose removed prefix and suffix are all whitespace and which neither starts nor ends with whitespace |
| PyText.StripPadded | services/check_dns_ubuntu.py:70-72 | a word padded with whitespace (such as `"active\n"`) strips to the bare word |
| PyText.Capitalize | check_mysql_ubuntu.py:46 | same length; first character upper-cased, every other character lower-cased |
| PyText.CapitalizeIdempotent | check_mysql_ubuntu.py:46 | capitalising a capitalised label changes nothing |
| PyText.ContainsIgnoreCase | services/check_dns_ubuntu.py:80 | `re.search(pattern, text, re.IGNORECASE)` for a literal lower-case pattern, scanning positions left to right; `ContainsIgnoreCaseSpec` states what it decides |
| PyText.ContainsIgnoreCaseSpec | services/check_dns_ubuntu.py:80 | true exactly when some slice of the text, lower-cased, equals the pattern |
| PyText.UpperChar | check_mysql_ubuntu.py:46 | no lower-case ASCII letter is left, and only a lower-case letter changes |
| PyText.LowerChar | check_mysql_ubuntu.py:46 | no capital is left, only a capital changes, and upper-casing the result gives the capital back |
| PyText.Lower | services/check_dns_ubuntu.py:80 | lower-cases every ASCII letter of a string; its properties are stated by `LowerSpec` |
| PyText.LowerSpec | services/check_dns_ubuntu.py:80 | lower-casing keeps the length, leaves no capital, changes only capitals, and is idempotent |
| PyValues.Show | services/check_dns_ubuntu.py:58 | `str(v)` as an f-string placeholder renders it; `ShowSpec` states its properties |
| PyValues.ShowSpec | services/check_dns_ubuntu.py:58 | `str()` of a string is the string; `str()` of an int is its canonical decimal text: digits only for a non-negative int, reading back as the int, with no leading zero (zero is `"0"`); a negative int is `-` followed by the text of its absolute value |
| PyValues.NatToStringRoundTrip | services/check_dns_ubuntu.py:58 | the decimal text of a natural number reads back as that number |
| PyValues.NatToStringNoLeadingZero | services/check_dns_ubuntu.py:58 | the decimal text starts with `0` exactly when the number is zero |
| Ssh.SshClient.Connect | services/check_dns_ubuntu.py:50-56 | appends one `Connect(host, port, username, key, timeout)` record; the session is open exactly when the outcome is `Connected` |
| Ssh.SshClient.ExecCommand | services/check_dns_ubuntu.py:68-70 | only on an open session; returns the command's stdout and appends one `Exec(command)` record |
| Ssh.SshClient.Close | services/check_dns_ubuntu.py:73 | closes the session and appends one `Close` record |
| ServiceProbe.Probe | services/check_dns_ubuntu.py:42-85 | what a check returns: the decoder's error, or the prefixed line for the `Classify` status; tied to the method `Check` and described by the lemmas below |
| ServiceProbe.ProbeCalls | services/check_dns_ubuntu.py:42-85 | the calls a check makes on the client: none for a refused host, otherwise `Calls` |
| ServiceProbe.Classify | services/check_dns_ubuntu.py:48-85 | the outcome ladder: missing key, then the connect outcome in `except` clause order, then `RemoteStatus`; `ConnectFailureRunsNoCommand` and `ConnectedStatus` state it |
| ServiceProbe.RemoteStatus | services/check_dns_ubuntu.py:68-85 | running when systemd answers "active", else SysV-running when the init script says "is running", else not running; `ConnectedStatus` states it |
| ServiceProbe.Message | services/check_dns_ubuntu.py:58-85 | the text after the prefix for each status; `BindMessages` and `DbOutcomes` give the literal lines |
| ServiceProbe.Prefix | services/check_dns_ubuntu.py:58 | `f"{host}:{port}: "`; `ReturnedLineHasHostPrefix` and `BareHostOnPort22` state it |
| ServiceProbe.Calls | services/check_dns_ubuntu.py:48-85 | nothing without a key, else the connect followed by `RemoteCalls` when it succeeded; `NoCertificateNoConnection`, `ConnectFailureRunsNoCommand` and `ConnectedCallOrder` state it |
| ServiceProbe.RemoteCalls | services/check_dns_ubuntu.py:68-85 | the one or two queries and the final `close()`; `RemoteCommands` and `ConnectedCallOrder` state it |
| ServiceProbe.Check | services/check_dns_ubuntu.py:42-85 | returns the `Probe` line (or raises the decoder's error) and appends exactly `ProbeCalls` to the client's log; with a decodable host and a key the session ends closed (or was never opened), otherwise the client's session state is untouched |
| ServiceProbe.Session | services/check_dns_ubuntu.py:48-85 | for a decoded host: returns the line for the `Classify` status and appends exactly `Calls` (nothing without a key; the connect; then the remote calls only if it succeeded); with a key the session ends closed, without one its state is untouched |
| ServiceProbe.QueryLegacy | services/check_dns_ubuntu.py:77-85 | runs the init-script query, answers "(SysV init)" exactly when its stripped output contains "is running" in any letter case and "NOT running" otherwise, and leaves the session closed |
| ServiceProbe.QueryConnected | services/check_dns_ubuntu.py:67-85 | on an open session: returns the `RemoteStatus` message and appends the one or two commands followed by `Close`, leaving the session closed |
| ServiceProbe.Commands | services/check_dns_ubuntu.py:68-77 | the commands in a call log: no more entries than calls, and `c` is among them exactly when `Exec(c)` was logged |
| ServiceProbe.InvalidHostMakesNoCalls | services/check_dns_ubuntu.py:42-44 | a host the decoder refuses raises, and no call reaches the client |
| ServiceProbe.ReturnedLineHasHostPrefix | services/check_dns_ubuntu.py:58-85 | every returned line starts with `"<host>:<port>: "` built from the decoded pair |
| ServiceProbe.NoCertificateNoConnection | services/check_dns_ubuntu.py:48-65 | with a falsy key path the result is "Certificate path is required" and the client sees no call |
| ServiceProbe.ConnectFailureRunsNoCommand | services/check_dns_ubuntu.py:49-62 | connect failures map in clause order to "Authentication failed (certificate)", "Connection error: e" and "SSH error: e"; the only call is the connect; no command runs and `close()` is not called |
| ServiceProbe.RemoteCommands | services/check_dns_ubuntu.py:68-78 | once connected, the systemd query runs, and the init-script query runs after it exactly when systemd did not answer "active" |
| ServiceProbe.ConnectedCallOrder | services/check_dns_ubuntu.py:68-85 | after a successful connect: one or two commands, systemd first; the second is the init script, present exactly when systemd was not "active"; `close()` is the last call and appears once |
| ServiceProbe.ConnectedStatus | services/check_dns_ubuntu.py:70-85 | once connected: "running" exactly when the stripped systemd answer is "active"; "(SysV init)" exactly when it is not and the stripped init-script output contains "is running" in any ASCII letter case; otherwise "NOT running" |
| ServiceProbe.PaddedActiveIsRunning | services/check_dns_ubuntu.py:70-74 | a systemd answer of "active" surrounded by whitespace (such as a trailing newline) counts as running |
| DnsCheck.CheckDnsRunning | services/check_dns_ubuntu.py:12-88 | the ladder run with the Bind queries `systemctl is-active bind9` and `service bind9 status`; the session ends closed whenever a connect was attempted |
| DnsCheck.BindOutcomes | services/check_dns_ubuntu.py:68-85 | "active" gives "Bind DNS is running" and only the systemd command runs; otherwise both commands run, and the result is "Bind DNS is running (SysV init)" or "Bind DNS is NOT running (or not found)" |
| DnsCheck.BindMessages | services/check_dns_ubuntu.py:74-85 | the three literal texts a connected Bind check reports |
| DnsCheck.BareHostOnPort22 | utils.py:27-29 | a bare host name is reported as `"<name>:22: ..."` |
| DbCheck.DbService | check_mysql_ubuntu.py:40-50 | the label `db_type.capitalize()`, the query `systemctl is-active <db_type>d` and the init-script query `service <db_type> status`; `QueriesDiffer`, `MysqlService`, `MariadbService` and `MariadbLabel` state it |
| DbCheck.CheckDbRunning | check_mysql_ubuntu.py:9-59 | the ladder run with `DbService(db_type)`; `db_type` defaults to "mysql"; the session ends closed whenever a connect was attempted |
| DbCheck.QueriesDiffer | check_mysql_ubuntu.py:40-50 | the systemd query and the init-script query differ for every `db_type`, so skipping the second one shows in the call log |
| DbCheck.MysqlService | check_mysql_ubuntu.py:40-55 | for "mysql": unit `mysqld`, query `systemctl is-active mysqld`, legacy `service mysql status`, label "Mysql" |
| DbCheck.MariadbService | check_mysql_ubuntu.py:40-50 | for "mariadb": query `systemctl is-active mariadbd`, legacy `service mariadb status` |
| DbCheck.MariadbLabel | check_mysql_ubuntu.py:46 | for "mariadb" the label is "Mariadb" |
| DbCheck.DbOutcomes | check_mysql_ubuntu.py:39-59 | "active" from `systemctl is-active <db_type>d` gives "<Capitalize(db_type)> is running" and the legacy query is never issued; otherwise `service <db_type> status` is issued and decides between "(SysV init)" and "NOT running (or not found)" |
| RenameFiles.NewName | rename_files.py:19 | `new_prefix + filename[len(prefix):]`; `NewNameKeepsSuffix`, `NewNameRoundTrip` and `NewNameInjective` state it |
| RenameFiles.NewNameKeepsSuffix | rename_files.py:19 | for a selected name, the new name starts with `new_prefix`, keeps the suffix after `prefix`, and has length `len(new_prefix) + len(name) - len(prefix)` |
| RenameFiles.NewNameRoundTrip | rename_files.py:19 | mapping back with the prefixes swapped recovers the original name |
| RenameFiles.NewNameInjective | rename_files.py:19 | distinct selected names get distinct new names |
| RenameFiles.Selected | rename_files.py:16 | exactly the listed names that start with `prefix` |
| RenameFiles.SelectedDistinct | rename_files.py:16 | a listing without repeats gives a selection without repeats |
| RenameFiles.ErrorReports | rename_files.py:26-27 | one error line per failed name: a name is reported exactly when its rename failed, and the directory is never reported missing |
| RenameFiles.RenameEntry | rename_files.py:24 | `os.rename`: moves the file when the old name exists and is not refused, replacing the target; otherwise fails and changes nothing; `Directory.Rename` is tied to it |
| RenameFiles.RenameAll | rename_files.py:18-27 | the loop: rename each selected name in order, recording a failure and going on; the lemmas below state it |
| RenameFiles.RenameAllSplit | rename_files.py:18-27 | the loop over `a + b` is the loop over `a` followed by the loop over `b` from the state it left |
| RenameFiles.FailuresReported | rename_files.py:23-27 | every selected name the system refuses is reported, only selected names are reported, and reports already made are kept |
| RenameFiles.RefusedNamesSkipped | rename_files.py:23-27 | a failed rename does not stop the loop: the directory ends as if the refused names had not been selected and nothing were refused |
| RenameFiles.FailedAreTheRefused | rename_files.py:18-27 | for distinct names that all exist, the reports are exactly the refused names, in order; a name the system allows is never reported |
| RenameFiles.ListingRunReportsRefused | rename_files.py:15-27 | for a directory listing, the run reports exactly the selected names the system refuses, in listing order |
| RenameFiles.OthersUntouched | rename_files.py:16-24 | an entry whose name starts with neither prefix keeps its name and its file |
| RenameFiles.CleanRunMovesEverything | rename_files.py:18-24 | with nothing refused and no new name already taken: no error; each selected file is found under its new name and not under its old one; every other entry stays; nothing else appears |
| RenameFiles.Directory.Rename | rename_files.py:24 | succeeds exactly when the old name exists and is not refused; then the file moves to the new name, replacing what was there; otherwise nothing changes |
| RenameFiles.RenameFilesIn | rename_files.py:15-30 | a missing directory gives only the not-found report and no change; otherwise the directory becomes `RenameAll` over the selected names, in listing order, with one error report per failed name |
| CopyFiles.FileHash | files/copy_files.py:7-20 | `None` exactly when the file cannot be read |
| CopyFiles.ShouldCopy | files/copy_files.py:44-76 | copy when the destination is missing; when the source is strictly newer; when `overwrite` is set; otherwise, with `hash_overwrite`, exactly when the hashes differ; with neither flag, never |
| CopyFiles.UnreadableFilesAreNotCopied | files/copy_files.py:59-67 | two unreadable files hash alike (`None == None`), so `hash_overwrite` alone does not copy |
| CopyFiles.CopyOne | files/copy_files.py:44-76 | the destination after one file: replaced by the source exactly when `ShouldCopy` says so |
| CopyFiles.CopyAll | files/copy_files.py:35-82 | the walk: `CopyOne` per file in walk order until the first file that raises; the lemmas below state it |
| CopyFiles.UnreadableCopyAborts | files/copy_files.py:49-82 | an unreadable source that the policy copies makes `copy2` raise: the walk stops there and the destination keeps its file |
| CopyFiles.OnlyWalkedPathsChange | files/copy_files.py:36-40 | no destination file is removed; new paths come only from the walk; a destination file with no source counterpart keeps its contents |
| CopyFiles.EachFileFollowsPolicy | files/copy_files.py:36-76 | with readable sources and no faults, each walked path ends up holding the source file exactly when `ShouldCopy` says so against the original destination, and the old destination file otherwise |
| CopyFiles.NoFaultNoAbort | files/copy_files.py:35-76 | a walk over readable sources that meets no fault is not aborted |
| CopyFiles.FaultAbortsRest | files/copy_files.py:35-82 | when the walk over the files before position `k` did not stop and the file at `k` raises (a fault, or an unreadable source the policy copies) against the destination they produced, the walk stops: the result is that destination, marked aborted |
| CopyFiles.CopyAllSplit | files/copy_files.py:35-82 | the walk over a whole list is the walk over its first `k` files, then, unless that stopped, the walk over the rest from where it left off |
| CopyFiles.CopyTwiceIsCopyOnce | files/copy_files.py:44-76 | with readable sources and no faults, running the copy again over its own result changes nothing |
| CopyFiles.WalkOrderIrrelevant | files/copy_files.py:36-37 | with readable sources and no faults, the order in which the walk yields files does not change the result |
| CopyFiles.DestTree.Copy2 | files/copy_files.py:49 | the file at the path becomes the source file (bytes and modification time); an unreadable source raises and changes nothing |
| CopyFiles.CopyFilesTo | files/copy_files.py:23-82 | the destination becomes `CopyAll` over the walk, and `aborted` says whether an exception ended it |

## Left out

- SSH itself: sockets, the host-key policy (unknown keys are accepted), and
  how paramiko authenticates. The connect outcome and each command's output
  are parameters of the client.
- The outer `except Exception` path of both checks. It returns
  `"<host>:<port>: Error: e"` without closing. No model operation raises
  after connecting, so this path is not modelled.
- Command execution failures and the missing timeout on `exec_command`.
- Byte decoding of command output: the client hands over decoded text.
- Python's full Unicode case mapping. `Capitalize`, `Lower` and the
  `re.IGNORECASE` search map ASCII letters only. `Strip` does use Python's
  complete whitespace set.
- `PyValues.Repr`: strings are quoted with single quotes and no escaping,
  which matters only for a host given inside a nested tuple or list.
- Both `main()` functions: the thread pool, completion order and printing.
- The exact exception messages (`str(e)`), which reach the output as opaque
  strings. The decoder's `ValueError` text is reduced to its two causes.
- `os.listdir` and `os.walk` ordering (a parameter), `os.makedirs`,
  `shutil.copy2` metadata other than the modification time, the `tqdm`
  progress bars, and real clocks. Modification times are integers; Python
  uses floats.
- Why a copy raises (permissions, a vanished file): the set of faulty paths
  is a parameter. Only an unreadable source is decided by the model itself.
- A `copy2` that raises after it has started writing, when the copy's write
  or the copying of the timestamps fails. The model leaves the faulty
  path's destination file as it was; on disk it may be truncated or partly
  written. The `FileNotFoundError` and generic messages of
  `copy_files` are reduced to the `aborted` flag.
- Why a rename fails: the set of refused names is a parameter, and a missing
  old name fails too. The exact `OSError` text is not modelled. Renaming
  replaces an existing file target, as POSIX `rename` does. A target that
  makes `rename` fail (a directory, or any existing target on Windows) is
  modelled by listing the old name among the refused names.
- `rename_files` listing errors other than a missing directory (permissions,
  not a directory), which print "An error occurred".
- The SHA-256 computation and the chunked read in `calculate_file_hash`.
- `figlet_header.py` and `signal_handling/ctrl_c.py`: a banner script over a
  third-party renderer, and a signal demo in Python 2 syntax. Neither is
  part of this model.
