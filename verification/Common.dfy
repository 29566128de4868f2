/** Values shared by every part of the agent. */
module Common {

  datatype Option<+T> = None | Some(value: T)

  newtype byte = x: int | 0 <= x < 256

  /** internal/model/spec.go: the parsed labels of one container. Durations are nanoseconds. */
  datatype Spec = Spec(
    enabled: bool,
    dbType: string,
    conn: string,
    database: string,
    cron: string,
    dest: string,
    prefix: string,
    webhook: string,
    retention: int,
    containerID: string,
    containerName: string)

  /** writer.BackupMetadata, without the fields that are copied from the spec or the clock. */
  datatype Metadata = Metadata(containerID: string, backupSize: nat, checksum: string, success: bool)

  /** What is left of a value computed in 64-bit two's complement arithmetic. */
  function Wrap64(x: int): (r: int)
    ensures -0x8000_0000_0000_0000 <= r < 0x8000_0000_0000_0000
    ensures (x - r) % 0x1_0000_0000_0000_0000 == 0
  {
    (x + 0x8000_0000_0000_0000) % 0x1_0000_0000_0000_0000 - 0x8000_0000_0000_0000
  }
}
