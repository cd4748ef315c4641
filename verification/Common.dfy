/** Constants and small types shared by the modules. */
module Common {

  datatype Option<T> = None | Some(value: T)

  /** consts.MountPath: the directory below which the agent mounts its volumes. */
  const MOUNT_PATH := "/mnt/workload-agent/crypto/"

  /** strings.HasPrefix */
  predicate HasPrefix(s: string, prefix: string) {
    prefix <= s
  }
}
