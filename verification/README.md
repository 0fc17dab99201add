# External memory in cudarc, as a resource-lifecycle protocol

This project models `src/driver/safe/external_memory.rs` of cudarc: the safe
Rust layer over the CUDA driver's external-memory interop. The layer imports an
OS file as a CUDA external-memory object (`ExternalMemory`). It maps a byte
range of that object to a device pointer (`MappedBuffer`, which consumes the
handle), or views it as a mipmapped array (`MipMappedArray`, which borrows the
handle) whose levels can be queried. All of these are released by `Drop`
implementations.

The CUDA driver is abstract (module `Native`). It is a state: the
external-memory objects, device pointers and mipmapped arrays it holds, the OS
files that are open, and a counter for fresh identifiers. Each operation of the
layer is a pure function that returns:

- the new state;
- the calls it issued, in order (`Bind` for `bind_to_thread`, `Import`,
  `Destroy`, `GetMappedBuffer`, `Free`, `MipmapCreate`, `MipmapDestroy`,
  `GetLevel`, `CloseFile`);
- either a value (`Finished`) or a hard stop (`HardStop`). A hard stop is a
  panic from `assert!` or `unwrap()`.

The outcome of every native call is a parameter, so every property holds
whatever the driver answers. The target platform (`TargetUnix` or
`TargetWindows`) is also a parameter. It decides whether the file behind an
import is closed when the handle is dropped.

The modules:

- `Native`: the driver, the integer widths, calls and resources.
- `MemoryType`: `ExternalMemoryType`, which variants exist on which platform,
  and its conversion to the native handle-type code.
- `ExternalMemory`: the operations of the layer and the three `Drop`
  implementations. The accessors `len`, `width` and `height` are the functions
  `Len`, `Width` and `Height`; the contracts of `MapRange` and
  `MipmappedArray` pin down what they return.
- `Protocol`: the driver protocol as predicates over a whole call trace.
  - No resource is touched after the call that released it, so nothing is
    released twice.
  - Every destroy and free comes right after a context binding.
- `Ownership`: a whole program.
  - It tracks the live Rust values (files, handles, buffers, views), the
    driver, and the trace.
  - The borrow checker's rules become `Enabled`. A handle is moved or dropped
    only while no view borrows it, and a value is used only while it is owned.
  - `Valid` is the invariant: every live value's resources are alive, no
    resource has two owners, and imported files are never touched again by
    the caller.
- `Lifecycle`: every statement, and so every program (`Execute`), keeps `Valid`
  and keeps the trace within the protocol.
- `Scenarios`: end-to-end usages.

`map_range` does not reject a reversed range. Its documentation (lines 97-99)
promises a panic for an invalid range. The code, however, only asserts `start <= size` and
`end <= size` (lines 101-102), and `Range::len` of a reversed range is 0. The
model follows the code: a reversed range inside the size maps zero bytes at
offset `start` (`Scenarios.ReversedRangeAccepted`).

## Model

| member | source | states |
|---|---|---|
| `ExternalMemory.ImportExternalMemory` | src/driver/safe/external_memory.rs:16-44 | The context is bound first, and the import is issued once and only after a successful binding. The result is a handle exactly when both calls succeed. The handle has the given size and file, a fresh native object, and leaves the file open. On failure, the driver's error is returned, no native object exists, and the file is closed exactly once, as the last call. No call touches anything but the file, and no call is issued beyond these. |
| `ExternalMemory.DropExternalMemory` | src/driver/safe/external_memory.rs:59-82 | Bind, then destroy exactly once; a failure of either stops the program instead of returning, with no close. On Windows the file is closed exactly once, after the destroy; on Unix it is never closed. No call is issued beyond these: one call when the binding fails, two when the destroy fails or on Unix, three otherwise. Only the handle's object and file are touched: the driver loses exactly those, and is unchanged on a hard stop. |
| `ExternalMemory.MapRange` | src/driver/safe/external_memory.rs:100-115 | Stops before any call exactly when `start` or `end` exceeds the size. Otherwise the first call asks for offset `start` and length `RangeLen(start, end)`. It succeeds exactly when that call does, and the buffer owns the handle and has that length. On a failed call the handle is dropped before the error returns: the context is bound, the object destroyed once (when the binding succeeds), and on Windows its file is closed once, last; nothing follows the drop's own calls, and the driver loses exactly those. The file is never closed on Unix. Only the handle's object and file are ever touched. |
| `ExternalMemory.RangeLen` | src/driver/safe/external_memory.rs:103-112 | `start + len == end` for an ordered range; 0 for a reversed one. |
| `ExternalMemory.MapAll` | src/driver/safe/external_memory.rs:86-89 | Never stops on the range check. It requests `0..size`, succeeds exactly when the driver call does, and yields a buffer of the full size owning the handle. |
| `ExternalMemory.MipmappedArray` | src/driver/safe/external_memory.rs:117-136 | One create call and no context binding. The view records the given width and height and borrows the handle. The error is propagated with the driver unchanged. The handle's object, buffers and files are untouched. |
| `ExternalMemory.Level` | src/driver/safe/external_memory.rs:195-202 | One call with the given level and no binding. The driver is unchanged. The result names the view's array and level, and the driver's error is propagated. |
| `ExternalMemory.DropMipMappedArray` | src/driver/safe/external_memory.rs:177-183 | Always completes: the destroy's result is discarded. One destroy call and no binding. Exactly this array leaves the driver when the destroy succeeds, and no array does otherwise; the borrowed handle's object is untouched. |
| `ExternalMemory.DropMappedBuffer` | src/driver/safe/external_memory.rs:144-155 | Calls are Bind, Free, Bind, Destroy in that order. Free is issued once; then the embedded handle is dropped, so it is destroyed once. On completion the driver loses exactly the pointer and the object (and the file, on Windows only), and the file is closed once on Windows, as the last call. It is never closed on Unix. A failed bind, free, second bind or destroy ends the calls there, after 1, 2, 3 or 4 calls; a completed drop issues 4 calls on Unix and 5 on Windows. Only the pointer, the object and the file are touched; arrays and fresh identifiers are unaffected. |
| `MemoryType.ConversionCoversPlatform` | src/driver/safe/external_memory.rs:210-271 | The codes reachable by converting a variant that exists on a platform are exactly the codes written out for that platform: opaque fd and NvSciBuf on Unix; the Win32, KMT, D3D12 and D3D11 codes and NvSciBuf on Windows. |
| `MemoryType.ToNativeInjective` | src/driver/safe/external_memory.rs:205-243 | Distinct variants convert to distinct codes, as each variant's discriminant is its own code. |
| `Lifecycle.ImportKeepsValid` | src/driver/safe/external_memory.rs:16-44 | Importing from an owned file keeps the program invariant, and the caller no longer holds the file. On success it lives in a new handle of the given size; on failure it is closed (released in the trace). |
| `Lifecycle.DropMemoryKeepsValid` | src/driver/safe/external_memory.rs:59-82 | Dropping an unborrowed handle keeps the trace within the protocol. If the program goes on, the invariant holds, the handle is gone and its object is released in the trace. |
| `Lifecycle.MapRangeKeepsValid` | src/driver/safe/external_memory.rs:100-115 | Mapping keeps the trace within the protocol and, if the program goes on, the invariant. The handle is consumed either way: on success it lives on inside a buffer, on a failed call its object is released in the trace. |
| `Lifecycle.MapAllKeepsValid` | src/driver/safe/external_memory.rs:86-89 | The same for mapping the whole import: the invariant, the protocol, and the consumed handle. |
| `Lifecycle.MipmapKeepsValid` | src/driver/safe/external_memory.rs:117-136 | Creating a view never stops the program and keeps the invariant. The handle is still owned afterwards, and on success a new view of it exists. |
| `Lifecycle.LevelKeepsValid` | src/driver/safe/external_memory.rs:195-202 | Querying a level never stops the program and keeps the invariant. |
| `Lifecycle.DropArrayKeepsValid` | src/driver/safe/external_memory.rs:177-183 | Dropping a view never stops the program and keeps the invariant. |
| `Lifecycle.DropBufferKeepsValid` | src/driver/safe/external_memory.rs:150-155 | Dropping a buffer keeps the trace within the protocol. If the program goes on, the invariant holds, the buffer is gone, and both its pointer and the object of the handle it consumed are released in the trace. |
| `Lifecycle.StepKeepsValid` | src/driver/safe/external_memory.rs:16-202 | Any statement the borrow rules allow keeps the invariant and only appends to the trace. Only the drops and the two mappings can stop the program. |
| `Lifecycle.ExecuteKeepsValid` | src/driver/safe/external_memory.rs:16-202 | Any program, under any driver answers, keeps the invariant. Its trace extends the starting trace and never uses a released resource, never releases one twice, and binds the context before every destroy and free. |
| `Lifecycle.ProgramKeepsProtocol` | src/driver/safe/external_memory.rs:16-202 | Every program run from the start issues a trace within the protocol. |
| `Scenarios.MapThenDrop` | src/driver/safe/external_memory.rs:100-155 | Mapping an ordered range and dropping the buffer issues exactly get-mapped-buffer, Bind, Free, Bind, Destroy, plus a close on Windows only. The buffer length is `end - start`. |
| `Scenarios.ImportMapDropOnUnix` | src/driver/safe/external_memory.rs:16-155 | Unix scenario: import 1024 bytes from a file descriptor, map `100..200` (a 100-byte buffer), then drop. Free and destroy each happen exactly once, free first, and the descriptor is never closed. |
| `Scenarios.MapAllOfEmpty` | src/driver/safe/external_memory.rs:86-112 | `map_all` of a zero-size import requests a zero-length mapping at offset 0 and yields an empty buffer. |
| `Scenarios.ReversedRangeAccepted` | src/driver/safe/external_memory.rs:100-112 | A reversed range inside the size passes both assertions and maps zero bytes at `start`. |
| `Scenarios.MapConsumes` | src/driver/safe/external_memory.rs:100-115 | After a successful mapping, no live handle shares the consumed handle's object or file. Exactly one buffer owns the import, so no second mapping of it can exist. |
| `Scenarios.MipmapRepeatable` | src/driver/safe/external_memory.rs:117-202 | Two views of one handle coexist on distinct arrays while the handle stays owned. Whichever is dropped first, the other remains a view of the handle, its levels can still be queried, and the invariant holds. |

## Left out

- What each native call does inside the driver is not modelled: alignment of mapped ranges, valid mip levels, whether the import's size is right. Each call's success or failure is a parameter.
- File I/O (`AsRawFd`, `AsRawHandle`) is not modelled; a `File` is an identifier, and dropping it is the `CloseFile` call.
- The thread-current context and the `Arc<CudaDevice>` reference count are not modelled. `bind_to_thread` is a call that may fail, and the device is always alive.
- Borrow-checker lifetimes are not verified. `MipMappedArray<'a>` outliving its handle, use after move, and `cfg`-gated variants are assumed: they are the `Enabled` conditions of a statement and the preconditions of the transitions.
- The integer values of `CUexternalMemoryHandleType_enum` are not available; the codes are distinct abstract constants.
- There is no code-to-variant conversion in the source, so none is modelled.
- The `Debug`, `Hash` and `Ord` derives and the `DevicePtr`/`DeviceSlice` trait plumbing are not modelled; `device_ptr` just returns the stored pointer.
- Unwinding after a panic is not modelled. A hard stop ends the program, with the calls issued up to the panic; drops run during unwinding are not followed.
- Identifiers stand for resource instances, not raw values: each new object, pointer, array or file gets a fresh identifier, never reused. Real `CUdeviceptr` values and OS descriptors can be reused after a free or close, so the trace protocol speaks about instances.
- `usize` is taken to be 64 bits wide, so the `as u64` and `as usize` casts are the identity.
- The `CUarray` of a mipmap level is represented by its array and level; it has no lifecycle in the source, and none in the model.
- ExternalMemory.DropMipMappedArray: when the discarded destroy fails, the model keeps the array in the driver's state. What the driver really holds after a failed destroy is not visible.
