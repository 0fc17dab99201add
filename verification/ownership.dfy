/** The layer seen from a whole program: which Rust values are alive, what
    each of them owns, and the calls issued so far. The borrow checker's
    guarantees (a moved value is gone, a borrowed handle outlives its views) are
    the preconditions of the transitions; everything else is proved: every
    transition keeps ownership exclusive and keeps the call trace within the
    driver protocol. */
module Ownership {
  import opened Native
  import opened MemoryType
  import opened ExternalMemory
  import opened Protocol

  /** The live values of a program and the calls it has issued. `transferred`
      records every file whose import succeeded. */
  datatype World = World(
    driver: DriverState,
    trace: seq<Event>,
    files: set<FileId>,
    handles: set<ExternalMemory>,
    buffers: set<MappedBuffer>,
    views: set<MipMappedArray>,
    transferred: set<FileId>)

  /** A program either keeps running or has stopped on a hard stop, after the
      calls recorded. */
  datatype Run = Running(world: World) | Stopped(trace: seq<Event>)

  function TraceOf(r: Run): seq<Event> {
    match r
    case Running(w) => w.trace
    case Stopped(t) => t
  }

  /** Two handles share neither their native object nor their file. */
  predicate Apart(h1: ExternalMemory, h2: ExternalMemory) {
    h1.mem != h2.mem && h1.file != h2.file
  }

  /** `r` is not released yet and its identifier has been handed out. */
  ghost predicate Live(w: World, r: Resource) {
    Unreleased(w.trace, r) && Id(r) < w.driver.next
  }

  ghost predicate HandleLive(w: World, h: ExternalMemory) {
    && Live(w, Mem(h.mem)) && Live(w, OsFile(h.file))
    && h.mem in w.driver.memories && h.file in w.driver.openFiles
  }

  /** Everything a live value owns is alive, in the trace and in the driver. */
  ghost predicate Held(w: World) {
    && (forall f | f in w.files :: Live(w, OsFile(f)) && f in w.driver.openFiles)
    && (forall h | h in w.handles :: HandleLive(w, h))
    && (forall b | b in w.buffers :: Live(w, Ptr(b.ptr)) && b.ptr in w.driver.buffers && HandleLive(w, b.owner))
    && (forall v | v in w.views :: Live(w, Arr(v.arr)) && v.arr in w.driver.arrays)
  }

  /** No resource has two owners: a consumed handle lives only inside its
      buffer, and no two values share a file, a native object or a pointer. */
  ghost predicate Exclusive(w: World) {
    && (forall f, h | f in w.files && h in w.handles :: f != h.file)
    && (forall f, b | f in w.files && b in w.buffers :: f != b.owner.file)
    && (forall h1, h2 | h1 in w.handles && h2 in w.handles && h1 != h2 :: Apart(h1, h2))
    && (forall b1, b2 | b1 in w.buffers && b2 in w.buffers && b1 != b2 :: b1.ptr != b2.ptr && Apart(b1.owner, b2.owner))
    && (forall h, b | h in w.handles && b in w.buffers :: Apart(h, b.owner))
    && (forall v1, v2 | v1 in w.views && v2 in w.views && v1 != v2 :: v1.arr != v2.arr)
  }

  /** The files handed over by successful imports: never again held by the
      caller, and on Unix (where the driver owns them) never closed. */
  ghost predicate FilesTransferred(w: World, plat: Platform) {
    && w.files !! w.transferred
    && (forall f | f in w.transferred :: f < w.driver.next)
    && (plat.TargetUnix? ==> forall f | f in w.transferred :: Unreleased(w.trace, OsFile(f)))
  }

  ghost predicate Valid(w: World, plat: Platform) {
    && TraceOk(w.trace)
    && IdsBelow(w.trace, w.driver.next)
    && Held(w)
    && Exclusive(w)
    && (forall v | v in w.views :: v.owner in w.handles)
    && FilesTransferred(w, plat)
  }

  /** A program before any value exists. */
  function Start(): (w: World)
    ensures forall plat :: Valid(w, plat)
  {
    World(DriverState({}, {}, {}, {}, 0), [], {}, {}, {}, {}, {})
  }

  /** Opening a file, outside this layer: a new `File` held by the caller. */
  function OpenFile(w: World): World {
    var f := w.driver.next;
    w.(driver := w.driver.(openFiles := w.driver.openFiles + {f}, next := f + 1), files := w.files + {f})
  }

  function DoImport(w: World, plat: Platform, f: FileId, size: u64, ty: ExternalMemoryType,
                    bind: CallResult, native: CallResult): Run
    requires f in w.files && AvailableOn(ty, plat)
  {
    var r := ImportExternalMemory(w.driver, plat, f, size, ty, bind, native);
    var w' := w.(driver := r.driver, trace := w.trace + r.calls, files := w.files - {f});
    match r.value
    case Ok(h) => Running(w'.(handles := w.handles + {h}, transferred := w.transferred + {f}))
    case Err(_) => Running(w')
  }

  function DoDropMemory(w: World, plat: Platform, h: ExternalMemory, o: DropOracle): Run
    requires h in w.handles
  {
    var r := DropExternalMemory(w.driver, plat, h, o);
    match r
    case HardStop(_, calls) => Stopped(w.trace + calls)
    case Finished(d, calls, _) => Running(w.(driver := d, trace := w.trace + calls, handles := w.handles - {h}))
  }

  /** The effect of a mapping step on the world: the handle is consumed either way. */
  function AfterMap(w: World, h: ExternalMemory, r: Exec<Result<MappedBuffer>>): Run {
    match r
    case HardStop(_, calls) => Stopped(w.trace + calls)
    case Finished(d, calls, Ok(b)) =>
      Running(w.(driver := d, trace := w.trace + calls, handles := w.handles - {h}, buffers := w.buffers + {b}))
    case Finished(d, calls, Err(_)) =>
      Running(w.(driver := d, trace := w.trace + calls, handles := w.handles - {h}))
  }

  function DoMapRange(w: World, plat: Platform, h: ExternalMemory, start: usize, end: usize,
                      get: CallResult, o: DropOracle): Run
    requires h in w.handles
  {
    AfterMap(w, h, MapRange(w.driver, plat, h, start, end, get, o))
  }

  function DoMapAll(w: World, plat: Platform, h: ExternalMemory, get: CallResult, o: DropOracle): Run
    requires h in w.handles
  {
    AfterMap(w, h, MapAll(w.driver, plat, h, get, o))
  }

  function DoMipmap(w: World, h: ExternalMemory, width: usize, height: usize, create: CallResult): Run
    requires h in w.handles
  {
    var r := MipmappedArray(w.driver, h, width, height, create);
    var w' := w.(driver := r.driver, trace := w.trace + r.calls);
    match r.value
    case Ok(v) => Running(w'.(views := w.views + {v}))
    case Err(_) => Running(w')
  }

  function DoLevel(w: World, v: MipMappedArray, level: u32, get: CallResult): Run
    requires v in w.views
  {
    var r := Level(w.driver, v, level, get);
    Running(w.(driver := r.driver, trace := w.trace + r.calls))
  }

  function DoDropArray(w: World, v: MipMappedArray, destroy: CallResult): Run
    requires v in w.views
  {
    var r := DropMipMappedArray(w.driver, v, destroy);
    Running(w.(driver := r.driver, trace := w.trace + r.calls, views := w.views - {v}))
  }

  function DoDropBuffer(w: World, plat: Platform, b: MappedBuffer, bind: CallResult, free: CallResult,
                        o: DropOracle): Run
    requires b in w.buffers
  {
    var r := DropMappedBuffer(w.driver, plat, b, bind, free, o);
    match r
    case HardStop(_, calls) => Stopped(w.trace + calls)
    case Finished(d, calls, _) => Running(w.(driver := d, trace := w.trace + calls, buffers := w.buffers - {b}))
  }

  /** One statement of a program using the layer. */
  datatype Command =
    | OpenStep
    | ImportStep(file: FileId, size: u64, ty: ExternalMemoryType, bind: CallResult, native: CallResult)
    | DropMemoryStep(handle: ExternalMemory, drop: DropOracle)
    | MapRangeStep(handle: ExternalMemory, start: usize, end: usize, get: CallResult, drop: DropOracle)
    | MapAllStep(handle: ExternalMemory, get: CallResult, drop: DropOracle)
    | MipmapStep(handle: ExternalMemory, width: usize, height: usize, create: CallResult)
    | LevelStep(view: MipMappedArray, level: u32, get: CallResult)
    | DropArrayStep(view: MipMappedArray, destroy: CallResult)
    | DropBufferStep(buffer: MappedBuffer, bind: CallResult, free: CallResult, drop: DropOracle)

  /** What the compiler lets a program write: only values it still owns can be
      used; a handle can be moved or dropped only while no view borrows it; a
      handle type can be named only on the target that defines it. */
  ghost predicate Enabled(w: World, plat: Platform, c: Command) {
    match c
    case OpenStep => true
    case ImportStep(f, _, ty, _, _) => f in w.files && AvailableOn(ty, plat)
    case DropMemoryStep(h, _) => h in w.handles && Unborrowed(w, h)
    case MapRangeStep(h, _, _, _, _) => h in w.handles && Unborrowed(w, h)
    case MapAllStep(h, _, _) => h in w.handles && Unborrowed(w, h)
    case MipmapStep(h, _, _, _) => h in w.handles
    case LevelStep(v, _, _) => v in w.views
    case DropArrayStep(v, _) => v in w.views
    case DropBufferStep(b, _, _, _) => b in w.buffers
  }

  ghost predicate Unborrowed(w: World, h: ExternalMemory) {
    forall v | v in w.views :: v.owner != h
  }

  /** Runs one statement; a statement the compiler would reject is not part of
      any program and changes nothing. */
  ghost function Step(w: World, plat: Platform, c: Command): Run {
    if !Enabled(w, plat, c) then Running(w)
    else match c
      case OpenStep => Running(OpenFile(w))
      case ImportStep(f, size, ty, bind, native) => DoImport(w, plat, f, size, ty, bind, native)
      case DropMemoryStep(h, o) => DoDropMemory(w, plat, h, o)
      case MapRangeStep(h, start, end, get, o) => DoMapRange(w, plat, h, start, end, get, o)
      case MapAllStep(h, get, o) => DoMapAll(w, plat, h, get, o)
      case MipmapStep(h, width, height, create) => DoMipmap(w, h, width, height, create)
      case LevelStep(v, level, get) => DoLevel(w, v, level, get)
      case DropArrayStep(v, destroy) => DoDropArray(w, v, destroy)
      case DropBufferStep(b, bind, free, o) => DoDropBuffer(w, plat, b, bind, free, o)
  }

  /** Runs a program until it ends or stops. */
  ghost function Execute(w: World, plat: Platform, program: seq<Command>): Run
    decreases |program|
  {
    if |program| == 0 then Running(w)
    else match Step(w, plat, program[0])
      case Stopped(t) => Stopped(t)
      case Running(w') => Execute(w', plat, program[1..])
  }
}
