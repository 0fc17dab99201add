/** Every transition of a program keeps the ownership discipline and the
    driver protocol of `Ownership.Valid`; hence so does every program. */
module Lifecycle {
  import opened Native
  import opened MemoryType
  import opened ExternalMemory
  import opened Protocol
  import opened Ownership

  /** Appending `s` keeps alive every resource that `s` does not release. */
  lemma KeepAlive(t: seq<Event>, s: seq<Event>)
    ensures forall r | Unreleased(t, r) && Unreleased(s, r) :: Unreleased(t + s, r)
  {
    forall r | Unreleased(t, r) && Unreleased(s, r) ensures Unreleased(t + s, r) {
      UnreleasedAppend(t, s, r);
    }
  }

  /** A release at position `i` of `t` ends the life of what it touches. */
  lemma ReleasedAt(t: seq<Event>, i: nat, r: Resource)
    requires i < |t| && IsRelease(t[i]) && r in Touched(t[i])
    ensures !Unreleased(t, r)
  {
  }

  /** The trace-level half of every transition: `s` keeps the protocol by
      itself, touches only live resources and hands out no identifier beyond
      `n`. */
  lemma Extend(w: World, s: seq<Event>, n: nat)
    requires TraceOk(w.trace) && IdsBelow(w.trace, w.driver.next) && w.driver.next <= n
    requires TraceOk(s) && IdsBelow(s, n) && TouchesOnlyUnreleased(w.trace, s)
    ensures TraceOk(w.trace + s) && IdsBelow(w.trace + s, n)
    ensures forall r | Unreleased(w.trace, r) && Unreleased(s, r) :: Unreleased(w.trace + s, r)
  {
    AppendTraceOk(w.trace, s);
    IdsBelowAppend(w.trace, s, n);
    KeepAlive(w.trace, s);
  }

  lemma OpenFileKeepsValid(w: World, plat: Platform)
    requires Valid(w, plat)
    ensures Valid(OpenFile(w), plat)
  {
    var f := w.driver.next;
    FreshUnreleased(w.trace, w.driver.next, OsFile(f));
  }

  lemma ImportKeepsValid(w: World, plat: Platform, f: FileId, size: u64, ty: ExternalMemoryType,
                         bind: CallResult, native: CallResult)
    requires Valid(w, plat) && f in w.files && AvailableOn(ty, plat)
    ensures DoImport(w, plat, f, size, ty, bind, native).Running?
    ensures Valid(DoImport(w, plat, f, size, ty, bind, native).world, plat)
    // the caller gives up the file either way: it moves into the new handle, or it is closed
    ensures f !in DoImport(w, plat, f, size, ty, bind, native).world.files
    ensures bind.Succeeded? && native.Succeeded? ==>
      var w' := DoImport(w, plat, f, size, ty, bind, native).world;
      && f in w'.transferred
      && (exists h | h in w'.handles :: h.file == f && h.size == size)
    ensures !(bind.Succeeded? && native.Succeeded?) ==>
      !Unreleased(DoImport(w, plat, f, size, ty, bind, native).world.trace, OsFile(f))
  {
    var r := ImportExternalMemory(w.driver, plat, f, size, ty, bind, native);
    var w' := DoImport(w, plat, f, size, ty, bind, native).world;
    if r.value.Err? {
      assert r.calls == (if bind.Failed? then [Bind, CloseFile(f)] else [Bind, Import(f, size, ToNative(ty)), CloseFile(f)]);
      assert w' == w.(driver := r.driver, trace := w.trace + r.calls, files := w.files - {f});
      FileClosedKeepsValid(w, plat, f, r.calls, r.driver);
      ReleasedAt(w'.trace, |w'.trace| - 1, OsFile(f));
    } else {
      var h := r.value.value;
      assert r.calls == [Bind, Import(f, size, ToNative(ty))];
      assert h == ExternalMemory(w.driver.next, size, f);
      assert w' == w.(driver := r.driver, trace := w.trace + r.calls, files := w.files - {f},
                      handles := w.handles + {h}, transferred := w.transferred + {f});
      FileImportedKeepsValid(w, plat, h, r.calls, r.driver);
      assert h in w'.handles;
    }
  }

  /** A failed import: the caller's file is closed and nothing else changes. */
  lemma FileClosedKeepsValid(w: World, plat: Platform, f: FileId, s: seq<Event>, d: DriverState)
    requires Valid(w, plat) && f in w.files
    requires d == w.driver.(openFiles := w.driver.openFiles - {f})
    requires |s| > 0 && s[|s| - 1] == CloseFile(f)
    requires forall i | 0 <= i < |s| - 1 :: s[i] == Bind || s[i].Import?
    requires forall i | 0 <= i < |s| :: Touched(s[i]) <= {OsFile(f)}
    ensures Valid(w.(driver := d, trace := w.trace + s, files := w.files - {f}), plat)
  {
    var w' := w.(driver := d, trace := w.trace + s, files := w.files - {f});
    assert Live(w, OsFile(f));
    assert forall i | 0 <= i < |s| && IsRelease(s[i]) :: i == |s| - 1;
    assert TraceOk(s);
    Extend(w, s, w.driver.next);
    assert forall x | x != OsFile(f) :: Unreleased(s, x);
    FileClosedHeld(w, f, s, d);
    assert Exclusive(w');
    assert FilesTransferred(w', plat);
  }

  lemma FileClosedHeld(w: World, f: FileId, s: seq<Event>, d: DriverState)
    requires Held(w) && Exclusive(w) && f in w.files
    requires d == w.driver.(openFiles := w.driver.openFiles - {f})
    requires forall x | x != OsFile(f) :: Unreleased(s, x)
    ensures Held(w.(driver := d, trace := w.trace + s, files := w.files - {f}))
  {
    var w' := w.(driver := d, trace := w.trace + s, files := w.files - {f});
    KeepAlive(w.trace, s);
    assert forall x | Live(w, x) && x != OsFile(f) :: Live(w', x);
    assert forall h | h in w.handles :: h.file != f;
    assert forall b | b in w.buffers :: b.owner.file != f;
  }

  /** A successful import: the caller's file moves into the new handle. */
  lemma FileImportedKeepsValid(w: World, plat: Platform, h: ExternalMemory, s: seq<Event>, d: DriverState)
    requires Valid(w, plat) && h.file in w.files && h.mem == w.driver.next
    requires d == w.driver.(memories := w.driver.memories + {h.mem}, next := w.driver.next + 1)
    requires forall i | 0 <= i < |s| :: !IsRelease(s[i]) && Touched(s[i]) <= {OsFile(h.file)}
    ensures Valid(w.(driver := d, trace := w.trace + s, files := w.files - {h.file},
                     handles := w.handles + {h}, transferred := w.transferred + {h.file}), plat)
  {
    var w' := w.(driver := d, trace := w.trace + s, files := w.files - {h.file},
                 handles := w.handles + {h}, transferred := w.transferred + {h.file});
    assert Live(w, OsFile(h.file));
    assert TraceOk(s);
    Extend(w, s, d.next);
    assert forall x :: Unreleased(s, x);
    assert forall x | Live(w, x) :: Live(w', x);
    FreshUnreleased(w.trace, w.driver.next, Mem(w.driver.next));
    assert HandleLive(w', h);
    assert Held(w');
    assert forall h2 | h2 in w.handles :: Apart(h, h2) && Apart(h2, h);
    assert forall b | b in w.buffers :: Apart(h, b.owner);
    assert Exclusive(w');
    assert FilesTransferred(w', plat);
  }

  lemma DropMemoryKeepsValid(w: World, plat: Platform, h: ExternalMemory, o: DropOracle)
    requires Valid(w, plat) && h in w.handles
    requires Unborrowed(w, h)
    ensures TraceOk(TraceOf(DoDropMemory(w, plat, h, o)))
    ensures DoDropMemory(w, plat, h, o).Running? ==> Valid(DoDropMemory(w, plat, h, o).world, plat)
    // the handle is gone, and so is its native object
    ensures DoDropMemory(w, plat, h, o).Running? ==>
      h !in DoDropMemory(w, plat, h, o).world.handles && !Unreleased(DoDropMemory(w, plat, h, o).world.trace, Mem(h.mem))
  {
    var r := DropExternalMemory(w.driver, plat, h, o);
    assert HandleLive(w, h);
    DropTraceFacts(w.driver, plat, h, o);
    Extend(w, r.calls, w.driver.next);
    if r.Finished? {
      HandleDroppedKeepsValid(w, plat, h, r.calls, r.driver);
      ReleasedAt(w.trace + r.calls, |w.trace| + 1, Mem(h.mem));
    }
  }

  /** The calls of dropping `h`, as the contract of `DropExternalMemory` fixes
      them, keep to the protocol and release only the handle's object and, on
      Windows, its file. */
  lemma DropTraceFacts(d: DriverState, plat: Platform, h: ExternalMemory, o: DropOracle)
    ensures TraceOk(DropExternalMemory(d, plat, h, o).calls)
    ensures forall x | x != Mem(h.mem) && x != OsFile(h.file) :: Unreleased(DropExternalMemory(d, plat, h, o).calls, x)
    ensures plat.TargetUnix? ==> Unreleased(DropExternalMemory(d, plat, h, o).calls, OsFile(h.file))
  {
    var s := DropExternalMemory(d, plat, h, o).calls;
    if o.bind.Failed? {
      assert s == [Bind];
    } else if o.destroy.Failed? || plat.TargetUnix? {
      assert s == [Bind, Destroy(h.mem)];
    } else {
      assert s == [Bind, Destroy(h.mem), CloseFile(h.file)];
    }
  }

  /** A handle goes away, together with everything it owned. */
  lemma HandleDroppedKeepsValid(w: World, plat: Platform, h: ExternalMemory, s: seq<Event>, d: DriverState)
    requires Valid(w, plat) && h in w.handles
    requires Unborrowed(w, h)
    requires TraceOk(s) && forall i | 0 <= i < |s| :: Touched(s[i]) <= {Mem(h.mem), OsFile(h.file)}
    requires forall x | x != Mem(h.mem) && x != OsFile(h.file) :: Unreleased(s, x)
    requires plat.TargetUnix? ==> Unreleased(s, OsFile(h.file))
    requires d.next == w.driver.next && d.buffers == w.driver.buffers && d.arrays == w.driver.arrays
    requires w.driver.memories - {h.mem} <= d.memories && w.driver.openFiles - {h.file} <= d.openFiles
    ensures Valid(w.(driver := d, trace := w.trace + s, handles := w.handles - {h}), plat)
  {
    var w' := w.(driver := d, trace := w.trace + s, handles := w.handles - {h});
    assert HandleLive(w, h);
    Extend(w, s, w.driver.next);
    HandleDroppedHeld(w, h, s, d);
    assert Exclusive(w');
    assert forall f | f in w.transferred :: Unreleased(w.trace, OsFile(f)) && Unreleased(s, OsFile(f)) ==> Unreleased(w'.trace, OsFile(f));
    assert FilesTransferred(w', plat);
  }

  lemma HandleDroppedHeld(w: World, h: ExternalMemory, s: seq<Event>, d: DriverState)
    requires Held(w) && Exclusive(w) && h in w.handles
    requires forall x | x != Mem(h.mem) && x != OsFile(h.file) :: Unreleased(s, x)
    requires d.next == w.driver.next && d.buffers == w.driver.buffers && d.arrays == w.driver.arrays
    requires w.driver.memories - {h.mem} <= d.memories && w.driver.openFiles - {h.file} <= d.openFiles
    ensures Held(w.(driver := d, trace := w.trace + s, handles := w.handles - {h}))
  {
    var w' := w.(driver := d, trace := w.trace + s, handles := w.handles - {h});
    KeepAlive(w.trace, s);
    assert forall x | Live(w, x) && x != Mem(h.mem) && x != OsFile(h.file) :: Live(w', x);
    assert forall f | f in w.files :: f != h.file;
    assert forall h2 | h2 in w.handles && h2 != h :: Apart(h, h2);
    assert forall b | b in w.buffers :: Apart(h, b.owner);
  }

  lemma MapKeepsValid(w: World, plat: Platform, h: ExternalMemory, r: Exec<Result<MappedBuffer>>,
                      start: usize, end: usize, get: CallResult, o: DropOracle)
    requires Valid(w, plat) && h in w.handles
    requires Unborrowed(w, h)
    requires r == MapRange(w.driver, plat, h, start, end, get, o)
    ensures TraceOk(TraceOf(AfterMap(w, h, r)))
    ensures AfterMap(w, h, r).Running? ==> Valid(AfterMap(w, h, r).world, plat)
    ensures AfterMap(w, h, r).Running? ==>
      var w' := AfterMap(w, h, r).world;
      && h !in w'.handles
      && (get.Succeeded? ==> exists b | b in w'.buffers :: b.owner == h)
      && (get.Failed? ==> !Unreleased(w'.trace, Mem(h.mem)))
  {
    assert HandleLive(w, h);
    if start > h.size || end > h.size {
      assert TraceOf(AfterMap(w, h, r)) == w.trace + [] == w.trace;
    } else if get.Failed? {
      MapFailedKeepsValid(w, plat, h, r, GetMappedBuffer(h.mem, start, RangeLen(start, end)), get.error, o);
    } else {
      var call := GetMappedBuffer(h.mem, start, RangeLen(start, end));
      assert r.calls == [call];
      Extend(w, [call], r.driver.next);
      HandleMappedKeepsValid(w, plat, h, r.value.value, [call], r.driver);
    }
    MapConsumesHandle(w, plat, h, r, start, end, get, o);
  }

  lemma MapConsumesHandle(w: World, plat: Platform, h: ExternalMemory, r: Exec<Result<MappedBuffer>>,
                          start: usize, end: usize, get: CallResult, o: DropOracle)
    requires r == MapRange(w.driver, plat, h, start, end, get, o)
    ensures AfterMap(w, h, r).Running? ==>
      var w' := AfterMap(w, h, r).world;
      && h !in w'.handles
      && (get.Succeeded? ==> exists b | b in w'.buffers :: b.owner == h)
      && (get.Failed? ==> !Unreleased(w'.trace, Mem(h.mem)))
  {
    if r.Finished? {
      if get.Succeeded? {
        assert r.value.value in AfterMap(w, h, r).world.buffers;
      } else {
        assert (w.trace + r.calls)[|w.trace| + 2] == Destroy(h.mem);
        ReleasedAt(w.trace + r.calls, |w.trace| + 2, Mem(h.mem));
      }
    }
  }

  /** A failed mapping: the handle is dropped after the failed call. */
  lemma MapFailedKeepsValid(w: World, plat: Platform, h: ExternalMemory, r: Exec<Result<MappedBuffer>>,
                            call: Event, e: DriverError, o: DropOracle)
    requires Valid(w, plat) && h in w.handles
    requires Unborrowed(w, h)
    requires call.GetMappedBuffer? && call.mem == h.mem
    requires r == DropConsumed(w.driver, plat, h, call, e, o)
    ensures TraceOk(TraceOf(AfterMap(w, h, r)))
    ensures AfterMap(w, h, r).Running? ==> Valid(AfterMap(w, h, r).world, plat)
  {
    ConsumedTraceFacts(w.driver, plat, h, call, e, o);
    assert HandleLive(w, h);
    Extend(w, r.calls, w.driver.next);
    if r.Finished? {
      HandleDroppedKeepsValid(w, plat, h, r.calls, r.driver);
    }
  }

  /** The calls of a failed mapping keep to the protocol: the failed call
      releases nothing, and the drop after it only the handle's own. */
  lemma ConsumedTraceFacts(d: DriverState, plat: Platform, h: ExternalMemory, call: Event, e: DriverError,
                           o: DropOracle)
    requires call.GetMappedBuffer? && call.mem == h.mem
    ensures TraceOk(DropConsumed(d, plat, h, call, e, o).calls)
    ensures forall x | x != Mem(h.mem) && x != OsFile(h.file) :: Unreleased(DropConsumed(d, plat, h, call, e, o).calls, x)
    ensures plat.TargetUnix? ==> Unreleased(DropConsumed(d, plat, h, call, e, o).calls, OsFile(h.file))
  {
    var t := DropExternalMemory(d, plat, h, o).calls;
    DropTraceFacts(d, plat, h, o);
    assert DropConsumed(d, plat, h, call, e, o).calls == [call] + t;
    AppendTraceOk([call], t);
    forall x | x != Mem(h.mem) && x != OsFile(h.file) ensures Unreleased([call] + t, x) {
      UnreleasedAppend([call], t, x);
    }
    UnreleasedAppend([call], t, OsFile(h.file));
  }

  /** A successful mapping: the handle moves into a new buffer. */
  lemma HandleMappedKeepsValid(w: World, plat: Platform, h: ExternalMemory, b: MappedBuffer, s: seq<Event>,
                               d: DriverState)
    requires Valid(w, plat) && h in w.handles
    requires Unborrowed(w, h)
    requires b.owner == h && b.ptr == w.driver.next
    requires d == w.driver.(buffers := w.driver.buffers + {b.ptr}, next := w.driver.next + 1)
    requires TraceOk(w.trace + s) && IdsBelow(w.trace + s, d.next)
    requires forall x :: Unreleased(s, x)
    ensures Valid(w.(driver := d, trace := w.trace + s, handles := w.handles - {h}, buffers := w.buffers + {b}), plat)
  {
    var w' := w.(driver := d, trace := w.trace + s, handles := w.handles - {h}, buffers := w.buffers + {b});
    HandleMappedHeld(w, h, b, s, d);
    assert forall b2 | b2 in w.buffers :: b2.ptr < b.ptr && Apart(h, b2.owner) && Apart(b2.owner, h);
    assert forall h2 | h2 in w.handles && h2 != h :: Apart(h2, h);
    assert Exclusive(w');
    KeepAlive(w.trace, s);
    assert FilesTransferred(w', plat);
  }

  lemma HandleMappedHeld(w: World, h: ExternalMemory, b: MappedBuffer, s: seq<Event>, d: DriverState)
    requires Held(w) && h in w.handles
    requires b.owner == h && b.ptr == w.driver.next
    requires d == w.driver.(buffers := w.driver.buffers + {b.ptr}, next := w.driver.next + 1)
    requires IdsBelow(w.trace, w.driver.next)
    requires forall x :: Unreleased(s, x)
    ensures Held(w.(driver := d, trace := w.trace + s, handles := w.handles - {h}, buffers := w.buffers + {b}))
  {
    var w' := w.(driver := d, trace := w.trace + s, handles := w.handles - {h}, buffers := w.buffers + {b});
    KeepAlive(w.trace, s);
    assert forall x | Live(w, x) :: Live(w', x);
    FreshUnreleased(w.trace, w.driver.next, Ptr(b.ptr));
    assert Live(w', Ptr(b.ptr));
    assert HandleLive(w, h);
  }

  lemma MapRangeKeepsValid(w: World, plat: Platform, h: ExternalMemory, start: usize, end: usize,
                           get: CallResult, o: DropOracle)
    requires Valid(w, plat) && h in w.handles
    requires Unborrowed(w, h)
    ensures TraceOk(TraceOf(DoMapRange(w, plat, h, start, end, get, o)))
    ensures DoMapRange(w, plat, h, start, end, get, o).Running? ==>
      Valid(DoMapRange(w, plat, h, start, end, get, o).world, plat)
    // the handle is consumed either way: it lives on in the buffer, or it is destroyed
    ensures DoMapRange(w, plat, h, start, end, get, o).Running? ==>
      var w' := DoMapRange(w, plat, h, start, end, get, o).world;
      && h !in w'.handles
      && (get.Succeeded? ==> exists b | b in w'.buffers :: b.owner == h)
      && (get.Failed? ==> !Unreleased(w'.trace, Mem(h.mem)))
  {
    MapKeepsValid(w, plat, h, MapRange(w.driver, plat, h, start, end, get, o), start, end, get, o);
  }

  lemma MapAllKeepsValid(w: World, plat: Platform, h: ExternalMemory, get: CallResult, o: DropOracle)
    requires Valid(w, plat) && h in w.handles
    requires Unborrowed(w, h)
    ensures TraceOk(TraceOf(DoMapAll(w, plat, h, get, o)))
    ensures DoMapAll(w, plat, h, get, o).Running? ==> Valid(DoMapAll(w, plat, h, get, o).world, plat)
    ensures DoMapAll(w, plat, h, get, o).Running? ==>
      var w' := DoMapAll(w, plat, h, get, o).world;
      && h !in w'.handles
      && (get.Succeeded? ==> exists b | b in w'.buffers :: b.owner == h)
      && (get.Failed? ==> !Unreleased(w'.trace, Mem(h.mem)))
  {
    MapKeepsValid(w, plat, h, MapRange(w.driver, plat, h, 0, h.size, get, o), 0, h.size, get, o);
  }

  lemma MipmapKeepsValid(w: World, plat: Platform, h: ExternalMemory, width: usize, height: usize,
                         create: CallResult)
    requires Valid(w, plat) && h in w.handles
    ensures DoMipmap(w, h, width, height, create).Running?
    ensures Valid(DoMipmap(w, h, width, height, create).world, plat)
    // the view only borrows: the handle stays owned, and a new view of it exists
    ensures h in DoMipmap(w, h, width, height, create).world.handles
    ensures create.Succeeded? ==>
      exists v | v in DoMipmap(w, h, width, height, create).world.views :: v.owner == h && v !in w.views
  {
    var r := MipmappedArray(w.driver, h, width, height, create);
    var s := r.calls;
    var w' := DoMipmap(w, h, width, height, create).world;
    assert s == [MipmapCreate(h.mem, width, height)];
    assert HandleLive(w, h);
    Extend(w, s, r.driver.next);
    assert forall x :: Unreleased(s, x);
    assert forall x | Live(w, x) :: Live(w', x);
    if r.value.Ok? {
      var v := r.value.value;
      assert w' == w.(driver := r.driver, trace := w.trace + s, views := w.views + {v});
      FreshUnreleased(w.trace, w.driver.next, Arr(w.driver.next));
      assert Live(w', Arr(v.arr));
      assert forall v2 | v2 in w.views :: v2.arr < v.arr;
    } else {
      assert w' == w.(driver := r.driver, trace := w.trace + s);
    }
    assert Held(w');
    assert Exclusive(w');
    assert FilesTransferred(w', plat);
  }

  lemma LevelKeepsValid(w: World, plat: Platform, v: MipMappedArray, level: u32, get: CallResult)
    requires Valid(w, plat) && v in w.views
    ensures DoLevel(w, v, level, get).Running?
    ensures Valid(DoLevel(w, v, level, get).world, plat)
  {
    var s := [GetLevel(v.arr, level)];
    var w' := DoLevel(w, v, level, get).world;
    assert w' == w.(trace := w.trace + s);
    assert Live(w, Arr(v.arr));
    Extend(w, s, w.driver.next);
    assert forall r :: Unreleased(s, r);
    assert forall r | Live(w, r) :: Live(w', r);
    assert Held(w');
    assert Exclusive(w');
    assert FilesTransferred(w', plat);
  }

  lemma DropArrayKeepsValid(w: World, plat: Platform, v: MipMappedArray, destroy: CallResult)
    requires Valid(w, plat) && v in w.views
    ensures DoDropArray(w, v, destroy).Running?
    ensures Valid(DoDropArray(w, v, destroy).world, plat)
  {
    var r := DropMipMappedArray(w.driver, v, destroy);
    var s := r.calls;
    var w' := DoDropArray(w, v, destroy).world;
    assert s == [MipmapDestroy(v.arr)];
    assert w' == w.(driver := r.driver, trace := w.trace + s, views := w.views - {v});
    assert Live(w, Arr(v.arr));
    Extend(w, s, w.driver.next);
    assert forall x | x != Arr(v.arr) :: Unreleased(s, x);
    assert forall x | Live(w, x) && x != Arr(v.arr) :: Live(w', x);
    assert Held(w');
    assert Exclusive(w');
    assert FilesTransferred(w', plat);
  }

  lemma DropBufferKeepsValid(w: World, plat: Platform, b: MappedBuffer, bind: CallResult, free: CallResult,
                             o: DropOracle)
    requires Valid(w, plat) && b in w.buffers
    ensures TraceOk(TraceOf(DoDropBuffer(w, plat, b, bind, free, o)))
    ensures DoDropBuffer(w, plat, b, bind, free, o).Running? ==>
      Valid(DoDropBuffer(w, plat, b, bind, free, o).world, plat)
    // the buffer is gone, with its pointer and the native object of the handle it consumed
    ensures DoDropBuffer(w, plat, b, bind, free, o).Running? ==>
      var w' := DoDropBuffer(w, plat, b, bind, free, o).world;
      b !in w'.buffers && !Unreleased(w'.trace, Ptr(b.ptr)) && !Unreleased(w'.trace, Mem(b.owner.mem))
  {
    var r := DropMappedBuffer(w.driver, plat, b, bind, free, o);
    var s := r.calls;
    BufferDropTraceFacts(w.driver, plat, b, bind, free, o);
    BufferDropTrace(w, plat, b, s);
    if r.Finished? {
      assert DoDropBuffer(w, plat, b, bind, free, o) == Running(w.(driver := r.driver, trace := w.trace + s, buffers := w.buffers - {b}));
      BufferDroppedKeepsValid(w, plat, b, s, r.driver);
    } else {
      assert DoDropBuffer(w, plat, b, bind, free, o) == Stopped(w.trace + s);
    }
    BufferDropReleases(w, plat, b, bind, free, o);
  }

  lemma BufferDropTrace(w: World, plat: Platform, b: MappedBuffer, s: seq<Event>)
    requires Valid(w, plat) && b in w.buffers
    requires TraceOk(s)
    requires forall i | 0 <= i < |s| :: Touched(s[i]) <= {Ptr(b.ptr), Mem(b.owner.mem), OsFile(b.owner.file)}
    ensures TraceOk(w.trace + s) && IdsBelow(w.trace + s, w.driver.next)
  {
    assert Live(w, Ptr(b.ptr)) && HandleLive(w, b.owner);
    Extend(w, s, w.driver.next);
  }

  lemma BufferDropReleases(w: World, plat: Platform, b: MappedBuffer, bind: CallResult, free: CallResult,
                           o: DropOracle)
    requires b in w.buffers
    ensures DoDropBuffer(w, plat, b, bind, free, o).Running? ==>
      var w' := DoDropBuffer(w, plat, b, bind, free, o).world;
      b !in w'.buffers && !Unreleased(w'.trace, Ptr(b.ptr)) && !Unreleased(w'.trace, Mem(b.owner.mem))
  {
    var r := DropMappedBuffer(w.driver, plat, b, bind, free, o);
    if r.Finished? {
      assert (w.trace + r.calls)[|w.trace| + 1] == Free(b.ptr);
      assert (w.trace + r.calls)[|w.trace| + 3] == Destroy(b.owner.mem);
      ReleasedAt(w.trace + r.calls, |w.trace| + 1, Ptr(b.ptr));
      ReleasedAt(w.trace + r.calls, |w.trace| + 3, Mem(b.owner.mem));
    }
  }

  /** The calls of dropping a buffer keep to the protocol and release only its
      pointer, its handle's object and, on Windows, the handle's file. */
  lemma BufferDropTraceFacts(d: DriverState, plat: Platform, b: MappedBuffer, bind: CallResult, free: CallResult,
                             o: DropOracle)
    ensures TraceOk(DropMappedBuffer(d, plat, b, bind, free, o).calls)
    ensures forall x | x != Ptr(b.ptr) && x != Mem(b.owner.mem) && x != OsFile(b.owner.file) ::
      Unreleased(DropMappedBuffer(d, plat, b, bind, free, o).calls, x)
    ensures plat.TargetUnix? ==> Unreleased(DropMappedBuffer(d, plat, b, bind, free, o).calls, OsFile(b.owner.file))
  {
    var s := DropMappedBuffer(d, plat, b, bind, free, o).calls;
    if bind.Failed? {
      assert s == [Bind];
    } else if free.Failed? {
      assert s == [Bind, Free(b.ptr)];
    } else {
      var freed := d.(buffers := d.buffers - {b.ptr});
      var t := DropExternalMemory(freed, plat, b.owner, o).calls;
      DropTraceFacts(freed, plat, b.owner, o);
      assert s == [Bind, Free(b.ptr)] + t;
      FreeThenDrop(b, t);
    }
  }

  /** Freeing the pointer and then dropping the handle keeps to the protocol
      when the drop itself does and never touches the pointer. */
  lemma FreeThenDrop(b: MappedBuffer, t: seq<Event>)
    requires TraceOk(t) && forall i | 0 <= i < |t| :: Touched(t[i]) <= {Mem(b.owner.mem), OsFile(b.owner.file)}
    ensures TraceOk([Bind, Free(b.ptr)] + t)
    ensures forall x | x != Ptr(b.ptr) :: Unreleased([Bind, Free(b.ptr)] + t, x) <==> Unreleased(t, x)
  {
    AppendTraceOk([Bind, Free(b.ptr)], t);
    forall x | x != Ptr(b.ptr) ensures Unreleased([Bind, Free(b.ptr)] + t, x) <==> Unreleased(t, x) {
      UnreleasedAppend([Bind, Free(b.ptr)], t, x);
    }
  }

  /** A buffer goes away, together with the handle it consumed. */
  lemma BufferDroppedKeepsValid(w: World, plat: Platform, b: MappedBuffer, s: seq<Event>, d: DriverState)
    requires Valid(w, plat) && b in w.buffers
    requires TraceOk(w.trace + s) && IdsBelow(w.trace + s, w.driver.next)
    requires forall x | x != Ptr(b.ptr) && x != Mem(b.owner.mem) && x != OsFile(b.owner.file) :: Unreleased(s, x)
    requires plat.TargetUnix? ==> Unreleased(s, OsFile(b.owner.file))
    requires d.next == w.driver.next && d.arrays == w.driver.arrays && w.driver.buffers - {b.ptr} <= d.buffers
    requires w.driver.memories - {b.owner.mem} <= d.memories && w.driver.openFiles - {b.owner.file} <= d.openFiles
    ensures Valid(w.(driver := d, trace := w.trace + s, buffers := w.buffers - {b}), plat)
  {
    var w' := w.(driver := d, trace := w.trace + s, buffers := w.buffers - {b});
    BufferDroppedHeld(w, b, s, d);
    assert Exclusive(w');
    KeepAlive(w.trace, s);
    assert forall f | f in w.transferred :: Unreleased(w.trace, OsFile(f)) && Unreleased(s, OsFile(f)) ==> Unreleased(w'.trace, OsFile(f));
    assert FilesTransferred(w', plat);
  }

  lemma BufferDroppedHeld(w: World, b: MappedBuffer, s: seq<Event>, d: DriverState)
    requires Held(w) && Exclusive(w) && b in w.buffers
    requires forall x | x != Ptr(b.ptr) && x != Mem(b.owner.mem) && x != OsFile(b.owner.file) :: Unreleased(s, x)
    requires d.next == w.driver.next && d.arrays == w.driver.arrays && w.driver.buffers - {b.ptr} <= d.buffers
    requires w.driver.memories - {b.owner.mem} <= d.memories && w.driver.openFiles - {b.owner.file} <= d.openFiles
    ensures Held(w.(driver := d, trace := w.trace + s, buffers := w.buffers - {b}))
  {
    var w' := w.(driver := d, trace := w.trace + s, buffers := w.buffers - {b});
    KeepAlive(w.trace, s);
    assert forall x | Live(w, x) && x != Ptr(b.ptr) && x != Mem(b.owner.mem) && x != OsFile(b.owner.file) :: Live(w', x);
    forall f | f in w'.files ensures Live(w', OsFile(f)) && f in d.openFiles {
      assert f != b.owner.file;
    }
    forall h | h in w'.handles ensures HandleLive(w', h) {
      assert HandleLive(w, h) && Apart(h, b.owner);
    }
    forall b2 | b2 in w'.buffers ensures Live(w', Ptr(b2.ptr)) && b2.ptr in d.buffers && HandleLive(w', b2.owner) {
      assert Live(w, Ptr(b2.ptr)) && HandleLive(w, b2.owner);
      assert b2.ptr != b.ptr && Apart(b2.owner, b.owner);
    }
  }

  /** Every statement a program can write keeps the discipline; one that stops
      the program leaves a trace that still keeps the protocol. */
  lemma StepKeepsValid(w: World, plat: Platform, c: Command)
    requires Valid(w, plat)
    ensures TraceOk(TraceOf(Step(w, plat, c)))
    ensures Step(w, plat, c).Running? ==> Valid(Step(w, plat, c).world, plat)
    ensures Step(w, plat, c).Stopped? ==> c.DropMemoryStep? || c.MapRangeStep? || c.MapAllStep? || c.DropBufferStep?
    ensures w.trace <= TraceOf(Step(w, plat, c))
  {
    if Enabled(w, plat, c) {
      match c
      case OpenStep => OpenFileKeepsValid(w, plat);
      case ImportStep(f, size, ty, bind, native) => ImportKeepsValid(w, plat, f, size, ty, bind, native);
      case DropMemoryStep(h, o) => DropMemoryKeepsValid(w, plat, h, o);
      case MapRangeStep(h, start, end, get, o) => MapRangeKeepsValid(w, plat, h, start, end, get, o);
      case MapAllStep(h, get, o) => MapAllKeepsValid(w, plat, h, get, o);
      case MipmapStep(h, width, height, create) => MipmapKeepsValid(w, plat, h, width, height, create);
      case LevelStep(v, level, get) => LevelKeepsValid(w, plat, v, level, get);
      case DropArrayStep(v, destroy) => DropArrayKeepsValid(w, plat, v, destroy);
      case DropBufferStep(b, bind, free, o) => DropBufferKeepsValid(w, plat, b, bind, free, o);
    }
  }

  /** The main theorem: whatever a program does and whatever the driver
      answers, every call issued keeps the protocol (no resource is used after
      it is released, so none is released twice, and every destroy and free
      runs with the context bound), and the ownership discipline holds
      throughout. */
  lemma {:induction false} ExecuteKeepsValid(w: World, plat: Platform, program: seq<Command>)
    requires Valid(w, plat)
    ensures TraceOk(TraceOf(Execute(w, plat, program)))
    ensures Execute(w, plat, program).Running? ==> Valid(Execute(w, plat, program).world, plat)
    ensures w.trace <= TraceOf(Execute(w, plat, program))
    decreases |program|
  {
    if |program| > 0 {
      StepKeepsValid(w, plat, program[0]);
      match Step(w, plat, program[0])
      case Stopped(t) =>
      case Running(w') => ExecuteKeepsValid(w', plat, program[1..]);
    }
  }

  /** Every program, from the start. */
  lemma ProgramKeepsProtocol(plat: Platform, program: seq<Command>)
    ensures TraceOk(TraceOf(Execute(Start(), plat, program)))
  {
    ExecuteKeepsValid(Start(), plat, program);
  }
}
