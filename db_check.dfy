/** check_mysql_ubuntu.py: whether MySQL or MariaDB runs on a remote host. */
module DbCheck {
  import opened Wrappers
  import opened PyValues
  import opened PyText
  import opened HostInfo
  import opened Ssh
  import opened ServiceProbe

  /** The database service for `db_type`: systemd knows it as `db_type + "d"`,
      the init script as `db_type`, and messages name it `db_type.capitalize()`. */
  function DbService(dbType: string): Service {
    Service(Capitalize(dbType), "systemctl is-active " + dbType + "d", "service " + dbType + " status")
  }

  /** `check_db_running(host_info, username, certificate_path, db_type)`. */
  method CheckDbRunning(client: SshClient, hostInfo: PyValue, username: string := "root",
                        certificatePath: Option<string> := None, dbType: string := "mysql")
    returns (r: ProbeResult)
    modifies client
    ensures r == Probe(hostInfo, username, certificatePath, client.outcome, client.reply, DbService(dbType))
    ensures client.log ==
            old(client.log) + ProbeCalls(hostInfo, username, certificatePath, client.outcome, client.reply, DbService(dbType))
    ensures DecodeHostInfo(hostInfo).Decoded? && CertificateGiven(certificatePath) ==> !client.connected
    ensures !(DecodeHostInfo(hostInfo).Decoded? && CertificateGiven(certificatePath)) ==>
              client.connected == old(client.connected)
  {
    r := Check(client, hostInfo, username, certificatePath, DbService(dbType));
  }

  /** The two queries differ for every `db_type`, so "the init script is not
      asked" is observable in the call log. */
  lemma QueriesDiffer(dbType: string)
    ensures DbService(dbType).modernQuery != DbService(dbType).legacyQuery
  {
    var svc := DbService(dbType);
    assert svc.modernQuery[1] == 'y' && svc.legacyQuery[1] == 'e';
  }

  /** The unit name, init-script name and label for `db_type = "mysql"`. */
  lemma MysqlService()
    ensures DbService("mysql") == Service("Mysql", "systemctl is-active mysqld", "service mysql status")
  {
    var r := Capitalize("mysql");
    assert |r| == 5;
    forall k | 0 <= k < 5 ensures r[k] == "Mysql"[k] {
    }
  }

  /** The unit name and the init-script name for `db_type = "mariadb"`. */
  lemma MariadbService()
    ensures DbService("mariadb").modernQuery == "systemctl is-active mariadbd"
    ensures DbService("mariadb").legacyQuery == "service mariadb status"
  {
  }

  /** The label for `db_type = "mariadb"`. */
  lemma MariadbLabel()
    ensures DbService("mariadb").displayName == "Mariadb"
  {
    var r := Capitalize("mariadb");
    assert |r| == 7;
    forall k | 0 <= k < 7 ensures r[k] == "Mariadb"[k] {
    }
  }

  /** The lines a connected database check returns, with the label
      `db_type.capitalize()`, and the commands behind each. */
  lemma DbOutcomes(host: PyValue, port: PyValue, username: string, certificatePath: Option<string>,
                   reply: string -> string, dbType: string)
    requires CertificateGiven(certificatePath)
    ensures var svc := DbService(dbType);
            var st := Classify(certificatePath, Connected, reply, svc);
            var calls := Calls(host, port, username, certificatePath, Connected, reply, svc);
            var name := Capitalize(dbType);
            (Strip(reply("systemctl is-active " + dbType + "d")) == "active" ==>
               Message(svc, st) == name + " is running" &&
               Exec("service " + dbType + " status") !in calls) &&
            (Strip(reply("systemctl is-active " + dbType + "d")) != "active" ==>
               Exec("service " + dbType + " status") in calls &&
               (LegacyRunning(reply, svc) ==> Message(svc, st) == name + " is running (SysV init)") &&
               (!LegacyRunning(reply, svc) ==> Message(svc, st) == name + " is NOT running (or not found)"))
  {
    var svc := DbService(dbType);
    QueriesDiffer(dbType);
    var calls := Calls(host, port, username, certificatePath, Connected, reply, svc);
    assert calls[1..] == RemoteCalls(reply, svc);
    assert calls == [calls[0]] + calls[1..];
  }
}
