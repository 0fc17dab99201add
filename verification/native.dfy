/** The abstract CUDA driver that the safe external-memory layer talks to.

    The driver is a state (the native objects it currently holds, the OS files
    that are open) plus the trace of every call issued to it, in order. Whether a
    native call succeeds is not decided here: every operation of the layer takes
    the outcome of each call it makes as a parameter (an oracle), so every
    property proved about the layer holds for every possible driver behaviour. */
module Native {

  /** Integer widths of the source. `usize` is taken to be 64 bits wide, so the
      `as u64` and `as usize` casts of the source are the identity. */
  const U64_LIMIT: int := 0x1_0000_0000_0000_0000
  type u64 = x: int | 0 <= x < U64_LIMIT
  type usize = u64
  type u32 = x: int | 0 <= x < 0x1_0000_0000

  /** The two `cfg` targets the source distinguishes. */
  datatype Platform = TargetUnix | TargetWindows

  /** Opaque native identifiers. */
  type ExtMemId = nat   // CUexternalMemory
  type DevicePtr = nat  // CUdeviceptr
  type ArrayId = nat    // CUmipmappedArray
  type FileId = nat     // the OS file descriptor or handle behind a `File`

  /** The native handle-type codes of `CUexternalMemoryHandleType_enum`, as
      distinct abstract constants. */
  datatype HandleTypeCode =
    | OpaqueFd
    | OpaqueWin32
    | OpaqueWin32Kmt
    | D3d12Heap
    | D3d12Resource
    | D3d11Resource
    | D3d11ResourceKmt
    | Nvscibuf

  /** A failed native call, carrying the driver's status. */
  datatype DriverError = DriverError(status: nat)

  /** The outcome of one native call, chosen by the driver. */
  datatype CallResult = Succeeded | Failed(error: DriverError)

  /** Rust's `Result<T, DriverError>`. */
  datatype Result<+T> = Ok(value: T) | Err(error: DriverError)

  /** Every native call the layer can issue, with the arguments it passes. */
  datatype Event =
    | Bind                                                      // CudaDevice::bind_to_thread
    | Import(file: FileId, size: u64, code: HandleTypeCode)     // cuImportExternalMemory
    | Destroy(mem: ExtMemId)                                    // cuDestroyExternalMemory
    | GetMappedBuffer(mem: ExtMemId, offset: u64, len: u64)     // cuExternalMemoryGetMappedBuffer
    | Free(ptr: DevicePtr)                                      // cuMemFree
    | MipmapCreate(mem: ExtMemId, width: usize, height: usize)  // cuExternalMemoryGetMappedMipmappedArray
    | MipmapDestroy(arr: ArrayId)                               // cuMipmappedArrayDestroy
    | GetLevel(arr: ArrayId, level: u32)                        // cuMipmappedArrayGetLevel
    | CloseFile(file: FileId)                                   // dropping a `File`

  /** A resource an event can touch, tagged with its kind. */
  datatype Resource = Mem(mem: ExtMemId) | Ptr(ptr: DevicePtr) | Arr(arr: ArrayId) | OsFile(file: FileId)

  function Id(r: Resource): nat {
    match r
    case Mem(m) => m
    case Ptr(p) => p
    case Arr(a) => a
    case OsFile(f) => f
  }

  /** The resources an event operates on (the context binding touches none). */
  function Touched(e: Event): set<Resource> {
    match e
    case Bind => {}
    case Import(f, _, _) => {OsFile(f)}
    case Destroy(m) => {Mem(m)}
    case GetMappedBuffer(m, _, _) => {Mem(m)}
    case Free(p) => {Ptr(p)}
    case MipmapCreate(m, _, _) => {Mem(m)}
    case MipmapDestroy(a) => {Arr(a)}
    case GetLevel(a, _) => {Arr(a)}
    case CloseFile(f) => {OsFile(f)}
  }

  /** Events that end the life of the resource they touch. */
  predicate IsRelease(e: Event) {
    e.Destroy? || e.Free? || e.MipmapDestroy? || e.CloseFile?
  }

  /** Releases that the driver requires to run with the context bound. */
  predicate NeedsContext(e: Event) {
    e.Destroy? || e.Free?
  }

  /** How often `e` occurs in `t`. */
  function Count(t: seq<Event>, e: Event): nat {
    multiset(t)[e]
  }

  /** The driver: the native objects alive in it, the OS files that are open,
      and the next fresh identifier. */
  datatype DriverState = DriverState(
    memories: set<ExtMemId>,
    buffers: set<DevicePtr>,
    arrays: set<ArrayId>,
    openFiles: set<FileId>,
    next: nat)

  /** A step of the layer: the driver state it leaves and the calls it issued,
      in order. A step either returns normally or stops the program (a panic
      from `assert!` or `unwrap()`) after the calls issued so far. */
  datatype Exec<+T> =
    | Finished(driver: DriverState, calls: seq<Event>, value: T)
    | HardStop(driver: DriverState, calls: seq<Event>)
}
