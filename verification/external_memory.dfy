/** The safe external-memory layer of src/driver/safe/external_memory.rs as
    transitions of the abstract driver: import, the two mapping operations,
    mipmapped arrays and their levels, and the three `Drop` implementations. */
module ExternalMemory {
  import opened Native
  import opened MemoryType

  /** `ExternalMemory`: the imported native object, its size in bytes, and the
      `File` it was imported from, held in a `ManuallyDrop` so that it is never
      closed implicitly. The `Arc<CudaDevice>` back-reference is not part of the
      model: the device is always alive. */
  datatype ExternalMemory = ExternalMemory(mem: ExtMemId, size: u64, file: FileId)

  /** `MappedBuffer`: a mapped device pointer, its length, and the handle it
      consumed. */
  datatype MappedBuffer = MappedBuffer(ptr: DevicePtr, len: usize, owner: ExternalMemory)

  /** `MipMappedArray<'a>`: a mipmapped array and the handle it borrows. */
  datatype MipMappedArray = MipMappedArray(arr: ArrayId, width: usize, height: usize, owner: ExternalMemory)

  /** The `CUarray` of one level of a mipmapped array: a plain value with no
      lifecycle of its own, identified by its array and level. */
  datatype LevelArray = LevelArray(arr: ArrayId, level: u32)

  /** Outcomes of the two native calls made when an `ExternalMemory` is dropped. */
  datatype DropOracle = DropOracle(bind: CallResult, destroy: CallResult) {
    predicate Clean() {
      bind.Succeeded? && destroy.Succeeded?
    }
  }

  /** `MappedBuffer::len` */
  function Len(b: MappedBuffer): usize {
    b.len
  }

  /** `MipMappedArray::width` */
  function Width(v: MipMappedArray): usize {
    v.width
  }

  /** `MipMappedArray::height` */
  function Height(v: MipMappedArray): usize {
    v.height
  }

  /** `Range::<usize>::len`: the number of positions in `start..end`, which is
      zero for a reversed range. */
  function RangeLen(start: usize, end: usize): (n: usize)
    ensures start <= end ==> start + n == end
    ensures end < start ==> n == 0
  {
    if start <= end then end - start else 0
  }

  /** `CudaDevice::import_external_memory`. The variant `ty` exists only on the
      platforms where it is available. The `File` is taken by value: when the
      function returns early with an error, it is dropped and so closed. */
  function ImportExternalMemory(d: DriverState, plat: Platform, file: FileId, size: u64,
                                ty: ExternalMemoryType, bind: CallResult, native: CallResult)
    : (r: Exec<Result<ExternalMemory>>)
    requires AvailableOn(ty, plat)
    ensures r.Finished? && |r.calls| > 0
    ensures r.value.Ok? <==> bind.Succeeded? && native.Succeeded?
    // the context is bound first; the import is issued once, and only when the binding succeeded
    ensures r.calls[0] == Bind
    ensures Count(r.calls, Import(file, size, ToNative(ty))) == (if bind.Succeeded? then 1 else 0)
    ensures bind.Succeeded? ==> |r.calls| > 1 && r.calls[1] == Import(file, size, ToNative(ty))
    // success: a new native object of exactly the given size, and the file stays open
    ensures r.value.Ok? ==>
      var h := r.value.value;
      && h.size == size && h.file == file
      && d.next <= h.mem < r.driver.next
      && r.driver.memories == d.memories + {h.mem}
      && Count(r.calls, CloseFile(file)) == 0
      && r.driver.openFiles == d.openFiles
    // failure: no native object, the driver's error, and the file closed once, last
    ensures r.value.Err? ==>
      && r.value.error == (if bind.Failed? then bind.error else native.error)
      && r.driver.memories == d.memories
      && Count(r.calls, CloseFile(file)) == 1
      && r.calls[|r.calls| - 1] == CloseFile(file)
      && r.driver.openFiles == d.openFiles - {file}
    ensures r.driver.buffers == d.buffers && r.driver.arrays == d.arrays
    // nothing but the caller's file is touched, and no call beyond those above
    ensures forall i | 0 <= i < |r.calls| :: Touched(r.calls[i]) <= {OsFile(file)}
    ensures Count(r.calls, Bind) == 1
    ensures |r.calls| == (if bind.Failed? then 2 else if native.Failed? then 3 else 2)
    ensures r.value.Err? ==> r.driver.next == d.next
  {
    var call := Import(file, size, ToNative(ty));
    var closed := d.(openFiles := d.openFiles - {file});
    if bind.Failed? then
      Finished(closed, [Bind, CloseFile(file)], Err(bind.error))
    else if native.Failed? then
      Finished(closed, [Bind, call, CloseFile(file)], Err(native.error))
    else
      var h := ExternalMemory(d.next, size, file);
      Finished(d.(memories := d.memories + {h.mem}, next := d.next + 1), [Bind, call], Ok(h))
  }

  /** `Drop for ExternalMemory`: bind the context, destroy the native object,
      and on Windows only close the retained file. A failure of the binding or of
      the destroy is `unwrap`ped: a hard stop, never a returned error. */
  function DropExternalMemory(d: DriverState, plat: Platform, h: ExternalMemory, o: DropOracle): (r: Exec<()>)
    ensures |r.calls| > 0 && r.calls[0] == Bind
    ensures r.Finished? <==> o.Clean()
    // destroyed exactly once, and only after the context is bound
    ensures Count(r.calls, Destroy(h.mem)) == (if o.bind.Succeeded? then 1 else 0)
    ensures o.bind.Succeeded? ==> |r.calls| > 1 && r.calls[1] == Destroy(h.mem)
    // the file is closed once on Windows, as the last step, and never on Unix
    ensures plat.TargetUnix? ==> Count(r.calls, CloseFile(h.file)) == 0
    ensures r.Finished? ==>
      && h.mem !in r.driver.memories
      && Count(r.calls, CloseFile(h.file)) == (if plat.TargetWindows? then 1 else 0)
      && (plat.TargetWindows? ==> r.calls[|r.calls| - 1] == CloseFile(h.file) && h.file !in r.driver.openFiles)
    ensures r.driver.buffers == d.buffers && r.driver.arrays == d.arrays && r.driver.next == d.next
    // only the handle's own object and file are touched, and nothing changes on a hard stop
    ensures forall i | 0 <= i < |r.calls| :: Touched(r.calls[i]) <= {Mem(h.mem), OsFile(h.file)}
    ensures Count(r.calls, Bind) == 1
    ensures |r.calls| == (if o.bind.Failed? then 1 else if o.destroy.Failed? || plat.TargetUnix? then 2 else 3)
    ensures r.HardStop? ==> r.driver == d && Count(r.calls, CloseFile(h.file)) == 0
    ensures r.Finished? ==>
      && r.driver.memories == d.memories - {h.mem}
      && r.driver.openFiles == (if plat.TargetWindows? then d.openFiles - {h.file} else d.openFiles)
  {
    if o.bind.Failed? then
      HardStop(d, [Bind])
    else if o.destroy.Failed? then
      HardStop(d, [Bind, Destroy(h.mem)])
    else
      var destroyed := d.(memories := d.memories - {h.mem});
      match plat
      case TargetUnix => Finished(destroyed, [Bind, Destroy(h.mem)], ())
      case TargetWindows =>
        Finished(destroyed.(openFiles := d.openFiles - {h.file}), [Bind, Destroy(h.mem), CloseFile(h.file)], ())
  }

  /** `ExternalMemory::map_range`, which consumes the handle. Both ends are
      checked against the size with `assert!`; the order of the ends is not. On
      success the handle moves into the buffer; when the native call fails, the
      `?` drops the consumed handle (and so destroys it) before the error is
      returned. */
  function MapRange(d: DriverState, plat: Platform, h: ExternalMemory, start: usize, end: usize,
                    get: CallResult, o: DropOracle)
    : (r: Exec<Result<MappedBuffer>>)
    // a hard stop before any call exactly when an end lies beyond the size
    ensures start > h.size || end > h.size ==> r == HardStop(d, [])
    ensures start <= h.size && end <= h.size ==>
      |r.calls| > 0 && r.calls[0] == GetMappedBuffer(h.mem, start, RangeLen(start, end))
    ensures r.Finished? && r.value.Ok? <==> start <= h.size && end <= h.size && get.Succeeded?
    // success: one call, a new buffer of the requested length owning the handle
    ensures r.Finished? && r.value.Ok? ==>
      var b := r.value.value;
      && b.owner == h && Len(b) == RangeLen(start, end)
      && d.next <= b.ptr < r.driver.next
      && r.driver.buffers == d.buffers + {b.ptr}
      && |r.calls| == 1
      && r.driver.memories == d.memories && r.driver.openFiles == d.openFiles
      && r.driver.arrays == d.arrays
    // native failure: the handle is dropped, so destroyed once, before the error returns, and
    // on Windows its file is closed once, last
    ensures start <= h.size && end <= h.size && get.Failed? ==>
      && (r.Finished? <==> o.Clean())
      && (r.HardStop? ==> r.driver == d)
      && (r.Finished? ==>
            && r.value == Err(get.error)
            && r.driver.memories == d.memories - {h.mem}
            && r.driver.openFiles == (if plat.TargetWindows? then d.openFiles - {h.file} else d.openFiles)
            && r.driver.buffers == d.buffers && r.driver.arrays == d.arrays && r.driver.next == d.next
            && Count(r.calls, Destroy(h.mem)) == 1
            && Count(r.calls, CloseFile(h.file)) == (if plat.TargetWindows? then 1 else 0)
            && (plat.TargetWindows? ==> r.calls[|r.calls| - 1] == CloseFile(h.file)))
    // after the failed call, bind, then destroy, and nothing beyond the handle's drop
    ensures start <= h.size && end <= h.size && get.Failed? ==>
      && |r.calls| == 1 + |DropExternalMemory(d, plat, h, o).calls|
      && r.calls[1] == Bind
      && (o.bind.Succeeded? ==> r.calls[2] == Destroy(h.mem))
    // the file is never closed on Unix
    ensures plat.TargetUnix? ==> Count(r.calls, CloseFile(h.file)) == 0
    // only the handle's own object and file are ever touched
    ensures forall i | 0 <= i < |r.calls| :: Touched(r.calls[i]) <= {Mem(h.mem), OsFile(h.file)}
  {
    if start > h.size then
      HardStop(d, [])
    else if end > h.size then
      HardStop(d, [])
    else
      var call := GetMappedBuffer(h.mem, start, RangeLen(start, end));
      if get.Failed? then
        DropConsumed(d, plat, h, call, get.error, o)
      else
        var b := MappedBuffer(d.next, RangeLen(start, end), h);
        Finished(d.(buffers := d.buffers + {b.ptr}, next := d.next + 1), [call], Ok(b))
  }

  /** The error path of `map_range`: after the failed `call`, the `?` returns
      and the consumed handle is dropped on the way out. */
  function DropConsumed(d: DriverState, plat: Platform, h: ExternalMemory, call: Event, e: DriverError,
                        o: DropOracle)
    : (r: Exec<Result<MappedBuffer>>)
    requires call.GetMappedBuffer? && call.mem == h.mem
    ensures |r.calls| > 0 && r.calls[0] == call
    // the consumed handle's drop follows: bind, then destroy, then on Windows the close
    ensures |r.calls| == 1 + |DropExternalMemory(d, plat, h, o).calls|
    ensures r.calls[1] == Bind
    ensures o.bind.Succeeded? ==> r.calls[2] == Destroy(h.mem)
    ensures plat.TargetUnix? ==> Count(r.calls, CloseFile(h.file)) == 0
    ensures r.Finished? <==> o.Clean()
    ensures r.HardStop? ==> r.driver == d
    ensures r.Finished? ==>
      && r.value == Err(e)
      && r.driver.memories == d.memories - {h.mem}
      && r.driver.openFiles == (if plat.TargetWindows? then d.openFiles - {h.file} else d.openFiles)
      && r.driver.buffers == d.buffers && r.driver.arrays == d.arrays && r.driver.next == d.next
      && Count(r.calls, Destroy(h.mem)) == 1
      && Count(r.calls, CloseFile(h.file)) == (if plat.TargetWindows? then 1 else 0)
      && (plat.TargetWindows? ==> r.calls[|r.calls| - 1] == CloseFile(h.file))
    ensures forall i | 0 <= i < |r.calls| :: Touched(r.calls[i]) <= {Mem(h.mem), OsFile(h.file)}
  {
    var m := DropExternalMemory(d, plat, h, o);
    TouchedWithin([call], m.calls, {Mem(h.mem), OsFile(h.file)});
    assert ([call] + m.calls)[|m.calls|] == m.calls[|m.calls| - 1];
    if m.Finished? then Finished(m.driver, [call] + m.calls, Err(e)) else HardStop(m.driver, [call] + m.calls)
  }

  /** `ExternalMemory::map_all`: map the whole `0..size` range. */
  function MapAll(d: DriverState, plat: Platform, h: ExternalMemory, get: CallResult, o: DropOracle)
    : (r: Exec<Result<MappedBuffer>>)
    // the range is always in bounds, so the only hard stop is a failed drop
    ensures r.HardStop? ==> get.Failed? && !o.Clean()
    ensures |r.calls| > 0 && r.calls[0] == GetMappedBuffer(h.mem, 0, h.size)
    ensures r.Finished? && r.value.Ok? <==> get.Succeeded?
    ensures r.Finished? && r.value.Ok? ==> r.value.value.owner == h && Len(r.value.value) == h.size
  {
    MapRange(d, plat, h, 0, h.size, get, o)
  }

  /** `ExternalMemory::mipmapped_array`, which borrows the handle: no context
      binding, one native call, and the handle's native object is untouched. */
  function MipmappedArray(d: DriverState, h: ExternalMemory, width: usize, height: usize, create: CallResult)
    : (r: Exec<Result<MipMappedArray>>)
    ensures r.Finished?
    ensures |r.calls| == 1 && Count(r.calls, MipmapCreate(h.mem, width, height)) == 1
    ensures Count(r.calls, Bind) == 0
    ensures r.value.Ok? <==> create.Succeeded?
    ensures r.value.Ok? ==>
      var v := r.value.value;
      && Width(v) == width && Height(v) == height && v.owner == h
      && d.next <= v.arr < r.driver.next
      && r.driver.arrays == d.arrays + {v.arr}
    ensures r.value.Err? ==> r.value.error == create.error && r.driver == d
    ensures r.driver.memories == d.memories && r.driver.buffers == d.buffers && r.driver.openFiles == d.openFiles
  {
    var call := MipmapCreate(h.mem, width, height);
    if create.Failed? then
      Finished(d, [call], Err(create.error))
    else
      var v := MipMappedArray(d.next, width, height, h);
      Finished(d.(arrays := d.arrays + {v.arr}, next := d.next + 1), [call], Ok(v))
  }

  /** `MipMappedArray::level`: pass the level index to the driver and propagate
      its error. No context binding and no new resource. */
  function Level(d: DriverState, v: MipMappedArray, level: u32, get: CallResult): (r: Exec<Result<LevelArray>>)
    ensures r.Finished? && r.driver == d
    ensures |r.calls| == 1 && Count(r.calls, GetLevel(v.arr, level)) == 1
    ensures r.value.Ok? <==> get.Succeeded?
    ensures r.value.Ok? ==> r.value.value.arr == v.arr && r.value.value.level == level
    ensures r.value.Err? ==> r.value.error == get.error
  {
    var call := GetLevel(v.arr, level);
    if get.Failed? then Finished(d, [call], Err(get.error)) else Finished(d, [call], Ok(LevelArray(v.arr, level)))
  }

  /** `Drop for MipMappedArray`: destroy the array without binding the context
      and discard the driver's answer, so it never stops the program. */
  function DropMipMappedArray(d: DriverState, v: MipMappedArray, destroy: CallResult): (r: Exec<()>)
    ensures r.Finished?
    ensures |r.calls| == 1 && Count(r.calls, MipmapDestroy(v.arr)) == 1
    ensures Count(r.calls, Bind) == 0
    ensures r.driver.arrays == (if destroy.Succeeded? then d.arrays - {v.arr} else d.arrays)
    ensures destroy.Succeeded? ==> v.arr !in r.driver.arrays
    // the borrowed handle is left alone
    ensures r.driver.memories == d.memories && r.driver.buffers == d.buffers
    ensures r.driver.openFiles == d.openFiles && r.driver.next == d.next
  {
    var call := MipmapDestroy(v.arr);
    if destroy.Succeeded? then Finished(d.(arrays := d.arrays - {v.arr}), [call], ()) else Finished(d, [call], ())
  }

  /** `Drop for MappedBuffer`: bind the context and free the device pointer
      (both `unwrap`ped), then the embedded `ExternalMemory` is dropped. */
  function DropMappedBuffer(d: DriverState, plat: Platform, b: MappedBuffer, bind: CallResult, free: CallResult,
                            o: DropOracle)
    : (r: Exec<()>)
    ensures r.Finished? <==> bind.Succeeded? && free.Succeeded? && o.Clean()
    // Bind, Free, Bind, Destroy: the pointer is freed strictly before the import is destroyed
    ensures |r.calls| > 0 && r.calls[0] == Bind
    ensures bind.Succeeded? ==> |r.calls| > 1 && r.calls[1] == Free(b.ptr)
    ensures bind.Succeeded? && free.Succeeded? ==> |r.calls| > 2 && r.calls[2] == Bind
    ensures bind.Succeeded? && free.Succeeded? && o.bind.Succeeded? ==>
      |r.calls| > 3 && r.calls[3] == Destroy(b.owner.mem)
    ensures Count(r.calls, Free(b.ptr)) == (if bind.Succeeded? then 1 else 0)
    ensures Count(r.calls, Destroy(b.owner.mem)) ==
      (if bind.Succeeded? && free.Succeeded? && o.bind.Succeeded? then 1 else 0)
    ensures r.Finished? ==>
      && r.driver.buffers == d.buffers - {b.ptr} && r.driver.memories == d.memories - {b.owner.mem}
      && r.driver.openFiles == (if plat.TargetWindows? then d.openFiles - {b.owner.file} else d.openFiles)
      && Count(r.calls, CloseFile(b.owner.file)) == (if plat.TargetWindows? then 1 else 0)
    // only the buffer's pointer and its handle's object and file are touched
    ensures forall i | 0 <= i < |r.calls| :: Touched(r.calls[i]) <= {Ptr(b.ptr), Mem(b.owner.mem), OsFile(b.owner.file)}
    ensures r.driver.arrays == d.arrays && r.driver.next == d.next
    ensures r.HardStop? ==> r.driver.memories == d.memories && r.driver.openFiles == d.openFiles
    // no call beyond these: the close comes last, on Windows only
    ensures |r.calls| == (if bind.Failed? then 1 else if free.Failed? then 2 else if o.bind.Failed? then 3
                          else if o.destroy.Failed? || plat.TargetUnix? then 4 else 5)
    ensures plat.TargetUnix? ==> Count(r.calls, CloseFile(b.owner.file)) == 0
    ensures r.Finished? && plat.TargetWindows? ==> r.calls[|r.calls| - 1] == CloseFile(b.owner.file)
  {
    if bind.Failed? then
      HardStop(d, [Bind])
    else if free.Failed? then
      HardStop(d, [Bind, Free(b.ptr)])
    else
      var freed := d.(buffers := d.buffers - {b.ptr});
      var m := DropExternalMemory(freed, plat, b.owner, o);
      var calls := [Bind, Free(b.ptr)] + m.calls;
      TouchedWithin([Bind, Free(b.ptr)], m.calls, {Ptr(b.ptr), Mem(b.owner.mem), OsFile(b.owner.file)});
      if m.Finished? then Finished(m.driver, calls, ()) else HardStop(m.driver, calls)
  }

  /** Two stretches of calls that touch only resources of `rs` make one. */
  lemma TouchedWithin(s: seq<Event>, t: seq<Event>, rs: set<Resource>)
    requires forall i | 0 <= i < |s| :: Touched(s[i]) <= rs
    requires forall i | 0 <= i < |t| :: Touched(t[i]) <= rs
    ensures forall i | 0 <= i < |s + t| :: Touched((s + t)[i]) <= rs
  {
  }
}
