/** Whole usages of the layer, end to end: the orders of calls they issue and
    what the borrow rules let a program do next. */
module Scenarios {
  import opened Native
  import opened MemoryType
  import opened ExternalMemory
  import opened Protocol
  import opened Ownership
  import opened Lifecycle

  /** Mapping a range and dropping the buffer: the mapping call, then a bound
      free of the pointer, then a bound destroy of the import, then (on Windows
      only) the close of the file. Each happens exactly once. */
  lemma MapThenDrop(d: DriverState, plat: Platform, h: ExternalMemory, start: usize, end: usize,
                    bind: CallResult, free: CallResult, o: DropOracle)
    requires start <= end <= h.size
    requires bind.Succeeded? && free.Succeeded? && o.Clean()
    ensures
      var m := MapRange(d, plat, h, start, end, Succeeded, o);
      && m.Finished? && m.value.Ok? && Len(m.value.value) == end - start
      && var r := DropMappedBuffer(m.driver, plat, m.value.value, bind, free, o);
      && r.Finished?
      && m.calls + r.calls ==
           [GetMappedBuffer(h.mem, start, end - start), Bind, Free(m.value.value.ptr), Bind, Destroy(h.mem)]
           + (if plat.TargetWindows? then [CloseFile(h.file)] else [])
      && h.mem !in r.driver.memories && m.value.value.ptr !in r.driver.buffers
  {
    var m := MapRange(d, plat, h, start, end, Succeeded, o);
    var b := MappedBuffer(d.next, end - start, h);
    assert m == Finished(d.(buffers := d.buffers + {b.ptr}, next := d.next + 1),
                         [GetMappedBuffer(h.mem, start, end - start)], Ok(b));
    var freed := m.driver.(buffers := m.driver.buffers - {b.ptr});
    var drop := DropExternalMemory(freed, plat, h, o);
    assert drop.calls == [Bind, Destroy(h.mem)] + (if plat.TargetWindows? then [CloseFile(h.file)] else []);
    var r := DropMappedBuffer(m.driver, plat, b, bind, free, o);
    assert r.calls == [Bind, Free(b.ptr)] + drop.calls;
  }

  /** Import 1024 bytes from a file descriptor, map `100..200` and drop the
      buffer: a buffer of 100 bytes, then one free and one destroy, the free
      first, and the file descriptor never closed. */
  lemma ImportMapDropOnUnix(d: DriverState, file: FileId, o: DropOracle)
    requires o.Clean()
    ensures
      var i := ImportExternalMemory(d, TargetUnix, file, 1024, FileDescriptor, Succeeded, Succeeded);
      && i.value.Ok?
      && var h := i.value.value;
      && var m := MapRange(i.driver, TargetUnix, h, 100, 200, Succeeded, o);
      && m.value.Ok? && Len(m.value.value) == 100
      && var r := DropMappedBuffer(m.driver, TargetUnix, m.value.value, Succeeded, Succeeded, o);
      && var t := i.calls + m.calls + r.calls;
      && Count(t, Free(m.value.value.ptr)) == 1 && Count(t, Destroy(h.mem)) == 1
      && Count(t, CloseFile(file)) == 0
      && t == [Bind, Import(file, 1024, OpaqueFd), GetMappedBuffer(h.mem, 100, 100),
               Bind, Free(m.value.value.ptr), Bind, Destroy(h.mem)]
  {
    var i := ImportExternalMemory(d, TargetUnix, file, 1024, FileDescriptor, Succeeded, Succeeded);
    var h := ExternalMemory(d.next, 1024, file);
    assert i.calls == [Bind, Import(file, 1024, OpaqueFd)] && i.value == Ok(h);
    MapThenDrop(i.driver, TargetUnix, h, 100, 200, Succeeded, Succeeded, o);
    var m := MapRange(i.driver, TargetUnix, h, 100, 200, Succeeded, o);
    var r := DropMappedBuffer(m.driver, TargetUnix, m.value.value, Succeeded, Succeeded, o);
    var p := m.value.value.ptr;
    assert i.calls + m.calls + r.calls
        == [Bind, Import(file, 1024, OpaqueFd), GetMappedBuffer(h.mem, 100, 100), Bind, Free(p), Bind, Destroy(h.mem)];
  }

  /** `map_all` of an empty import asks for a zero-length mapping at offset 0
      and, when the driver agrees, yields an empty buffer. */
  lemma MapAllOfEmpty(d: DriverState, plat: Platform, h: ExternalMemory, o: DropOracle)
    requires h.size == 0
    ensures MapAll(d, plat, h, Succeeded, o).calls == [GetMappedBuffer(h.mem, 0, 0)]
    ensures MapAll(d, plat, h, Succeeded, o).value.Ok? && Len(MapAll(d, plat, h, Succeeded, o).value.value) == 0
  {
  }

  /** A reversed range inside the size passes both checks: it maps zero bytes
      at offset `start`. */
  lemma ReversedRangeAccepted(d: DriverState, plat: Platform, h: ExternalMemory, start: usize, end: usize,
                              o: DropOracle)
    requires end < start <= h.size
    ensures MapRange(d, plat, h, start, end, Succeeded, o).calls == [GetMappedBuffer(h.mem, start, 0)]
    ensures MapRange(d, plat, h, start, end, Succeeded, o).value.Ok?
    ensures Len(MapRange(d, plat, h, start, end, Succeeded, o).value.value) == 0
  {
  }

  /** After a successful mapping the handle is gone from the program, and the
      import it named is owned by exactly one buffer: no second mapping of it
      can be expressed. */
  lemma MapConsumes(w: World, plat: Platform, h: ExternalMemory, start: usize, end: usize, o: DropOracle)
    requires Valid(w, plat) && h in w.handles && Unborrowed(w, h)
    requires start <= h.size && end <= h.size
    ensures DoMapRange(w, plat, h, start, end, Succeeded, o).Running?
    ensures
      var w' := DoMapRange(w, plat, h, start, end, Succeeded, o).world;
      && (forall h2 | h2 in w'.handles :: h2.mem != h.mem && h2.file != h.file)
      && (exists b | b in w'.buffers :: b.owner == h)
      && (forall b1, b2 | b1 in w'.buffers && b2 in w'.buffers && b1.owner.mem == h.mem && b2.owner.mem == h.mem
            :: b1 == b2)
  {
    MapRangeKeepsValid(w, plat, h, start, end, Succeeded, o);
    var w' := DoMapRange(w, plat, h, start, end, Succeeded, o).world;
    var b := MappedBuffer(w.driver.next, RangeLen(start, end), h);
    assert w' == w.(driver := w'.driver, trace := w'.trace, handles := w.handles - {h}, buffers := w.buffers + {b});
    assert b in w'.buffers;
    assert forall h2 | h2 in w'.handles :: Apart(h2, h);
  }

  /** After `gone` is dropped, `kept` is still a live view of `h`, its levels
      can still be queried, and the invariant holds. */
  ghost predicate UsableAfterDrop(w: World, plat: Platform, h: ExternalMemory, gone: MipMappedArray,
                                  kept: MipMappedArray, level: u32, destroy: CallResult)
  {
    && gone in w.views
    && var a := DoDropArray(w, gone, destroy).world;
    && kept in a.views && kept.owner == h && h in a.handles
    && Enabled(a, plat, LevelStep(kept, level, Succeeded))
    && Valid(a, plat)
  }

  /** A handle can be viewed twice: both views exist side by side, on distinct
      arrays, while the handle stays owned by the program; either can be
      dropped first, and the other stays usable. */
  lemma MipmapRepeatable(w: World, plat: Platform, h: ExternalMemory, width: usize, height: usize,
                         level: u32, destroy: CallResult)
    requires Valid(w, plat) && h in w.handles
    ensures
      var w1 := DoMipmap(w, h, width, height, Succeeded).world;
      && h in w1.handles
      && var w2 := DoMipmap(w1, h, width, height, Succeeded).world;
      && h in w2.handles
      && Valid(w2, plat)
      && (exists v1, v2 | v1 in w2.views && v2 in w2.views ::
            && v1.arr != v2.arr
            && UsableAfterDrop(w2, plat, h, v1, v2, level, destroy)
            && UsableAfterDrop(w2, plat, h, v2, v1, level, destroy))
  {
    MipmapKeepsValid(w, plat, h, width, height, Succeeded);
    var w1 := DoMipmap(w, h, width, height, Succeeded).world;
    MipmapKeepsValid(w1, plat, h, width, height, Succeeded);
    var w2 := DoMipmap(w1, h, width, height, Succeeded).world;
    var v1 := MipMappedArray(w.driver.next, width, height, h);
    var v2 := MipMappedArray(w1.driver.next, width, height, h);
    assert v1 in w1.views && v2 in w2.views && v1 in w2.views;
    OtherViewUsable(w2, plat, h, v1, v2, level, destroy);
    OtherViewUsable(w2, plat, h, v2, v1, level, destroy);
  }

  lemma OtherViewUsable(w: World, plat: Platform, h: ExternalMemory, gone: MipMappedArray, kept: MipMappedArray,
                        level: u32, destroy: CallResult)
    requires Valid(w, plat) && h in w.handles
    requires gone in w.views && kept in w.views && gone != kept && kept.owner == h
    ensures UsableAfterDrop(w, plat, h, gone, kept, level, destroy)
  {
    DropArrayKeepsValid(w, plat, gone, destroy);
    var a := DoDropArray(w, gone, destroy).world;
    assert a.views == w.views - {gone} && a.handles == w.handles;
  }
}
