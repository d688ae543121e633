/** Mail targets and the login that goes with them: what every other component is handed. */
module Credentials {

  datatype HostPort = HostPort(host: string, port: nat)

  datatype Credential = Credential(username: string, password: string, imapTarget: HostPort, smtpTarget: HostPort)
}
