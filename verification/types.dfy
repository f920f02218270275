/** Names shared by the whole model. Identifiers that the runtime only compares
    (device ids, process instance ids, nonces) are integers: the model uses
    nothing about them but equality and their total order. */
module Types {

  datatype Option<+T> = None | Some(value: T)

  datatype Result<+T, +E> = Ok(value: T) | Err(error: E)

  type DeviceId = int

  /** The random 16-byte identifier of one run of a peer's process. */
  type InstanceId = int

  datatype SessionKind = Pairing | Control | RealtimeInput | FileTransfer | Print | DiscoveryProbe

  datatype CapabilityId = CrossScreenInject | RemoteFilesRead | RemoteFilesWrite | OtherCapability(code: nat)
}
