/**
 * What the two routes read from the machine, taken as inputs: one snapshot
 * of Node's `os` module and the outcome of running a shell command.
 */
module Host {
  import opened Wrappers

  /** One entry of `os.cpus()`; the clock speed is in MHz. */
  datatype Cpu = Cpu(model: string, speedMHz: nat)

  /** One address of an interface in `os.networkInterfaces()`. */
  datatype InterfaceAddress = InterfaceAddress(address: string, family: string, internal: bool)

  /**
   * One `[name, addresses]` pair of `Object.entries(os.networkInterfaces())`,
   * in enumeration order; the address list may be undefined.
   */
  datatype InterfaceEntry = InterfaceEntry(name: string, addresses: Option<seq<InterfaceAddress>>)

  /** The values the `os` module reports during one request. */
  datatype OsSnapshot = OsSnapshot(
    hostname: string,
    platform: string,
    release: string,
    arch: string,
    cpus: seq<Cpu>,
    totalMem: nat,
    freeMem: nat,
    uptime: nat,
    loadAverage: seq<real>,
    interfaces: seq<InterfaceEntry>)

  /**
   * How one `execAsync(command)` settles: it resolves with both captured
   * streams, or rejects with an error whose `stderr` may be missing.
   */
  datatype ExecOutcome =
    | Completed(stdout: string, stderr: string)
    | Failed(message: string, errorStderr: Option<string>)

  /** The model of the child-process runner: the outcome each command has. */
  type Exec = string -> ExecOutcome

  /**
   * `primaryCpu?.model ?? null`, with `primaryCpu = cpus?.[0]`: the model of
   * the first CPU, absent exactly when there is no CPU entry.
   */
  function PrimaryCpuModel(cpus: seq<Cpu>): (m: Option<string>)
    ensures m.None? <==> cpus == []
    ensures m.Some? ==> m.value == cpus[0].model
  {
    if cpus == [] then None else Some(cpus[0].model)
  }
}
