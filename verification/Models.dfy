/** Values shared by the client and the server: snapshots, users and wire messages. */
module Models {

  datatype Option<+T> = None | Some(value: T)

  type int32 = x: int | -0x8000_0000 <= x < 0x8000_0000

  datatype Role = User | Admin

  datatype ProcessInfo = ProcessInfo(pid: int32, name: string)

  /** The measured quantities. They are carried, never computed with. */
  datatype Readings = Readings(
    cpuUsage: real,
    ramUsage: real,
    diskFreePercent: real,
    diskFreeGb: real,
    temperatureC: real,
    smartPredictFailure: bool)

  datatype MetricsSnapshot = MetricsSnapshot(
    localId: int,
    userId: int,
    nodeName: string,
    timestampUtc: string,
    readings: Readings,
    processes: seq<ProcessInfo>)

  datatype UserInfo = UserInfo(id: int, username: string, nodeName: string, role: Role)

  /** What a server session knows about its client: m_userId, m_nodeName and m_isAdmin. */
  datatype Identity = Identity(userId: int, nodeName: string, isAdmin: bool)

  datatype WireMessage = WireMessage(kind: string, payload: string)

  const LOGIN := "LOGIN"
  const REGISTER := "REGISTER"
  const METRICS := "METRICS"
  const ACK := "ACK"
  const COMMAND := "COMMAND"
  const NODES_LIST := "NODES_LIST"
  const GET_METRICS := "GET_METRICS"
  const LOGIN_RESP := "LOGIN_RESP"
  const REGISTER_RESP := "REGISTER_RESP"
  const NODES_LIST_RESP := "NODES_LIST_RESP"
  const GET_METRICS_RESP := "GET_METRICS_RESP"
}
