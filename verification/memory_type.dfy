/** `ExternalMemoryType`: the kinds of OS handle an import can name, filtered by
    target platform, and their conversion to the native handle-type code. */
module MemoryType {
  import opened Native

  /** All variants of the enum. The `cfg` gating of the source is `AvailableOn`:
      a variant that is not available on a platform does not exist there. */
  datatype ExternalMemoryType =
    | FileDescriptor
    | Windows
    | WindowsKMT
    | DirectX12Heap
    | DirectX12Resource
    | DirectX11Resource
    | DirectX11ResourceKMT
    | NvSciBuf

  /** `FileDescriptor` only on Unix, `NvSciBuf` everywhere, the rest only on Windows. */
  predicate AvailableOn(t: ExternalMemoryType, p: Platform) {
    match t
    case FileDescriptor => p.TargetUnix?
    case NvSciBuf => true
    case _ => p.TargetWindows?
  }

  /** The `Into<CUexternalMemoryHandleType_enum>` conversion. */
  function ToNative(t: ExternalMemoryType): HandleTypeCode {
    match t
    case FileDescriptor => OpaqueFd
    case Windows => OpaqueWin32
    case WindowsKMT => OpaqueWin32Kmt
    case DirectX12Heap => D3d12Heap
    case DirectX12Resource => D3d12Resource
    case DirectX11Resource => D3d11Resource
    case DirectX11ResourceKMT => D3d11ResourceKmt
    case NvSciBuf => Nvscibuf
  }

  /** The handle-type codes the driver can be handed on a platform, written
      out independently of the conversion. */
  function CodesFor(p: Platform): set<HandleTypeCode> {
    match p
    case TargetUnix => {OpaqueFd, Nvscibuf}
    case TargetWindows =>
      {OpaqueWin32, OpaqueWin32Kmt, D3d12Heap, D3d12Resource, D3d11Resource, D3d11ResourceKmt, Nvscibuf}
  }

  /** Distinct variants convert to distinct codes, so the code identifies the
      variant (each variant's `repr(u32)` discriminant is its code). */
  lemma ToNativeInjective(a: ExternalMemoryType, b: ExternalMemoryType)
    ensures ToNative(a) == ToNative(b) ==> a == b
  {
  }

  /** A code is produced by converting a variant that exists on platform `p`
      exactly when it is one of the codes listed for `p`. */
  lemma ConversionCoversPlatform(p: Platform, c: HandleTypeCode)
    ensures (exists t :: AvailableOn(t, p) && ToNative(t) == c) <==> c in CodesFor(p)
  {
    if c in CodesFor(p) {
      var t :=
        match c
        case OpaqueFd => FileDescriptor
        case OpaqueWin32 => Windows
        case OpaqueWin32Kmt => WindowsKMT
        case D3d12Heap => DirectX12Heap
        case D3d12Resource => DirectX12Resource
        case D3d11Resource => DirectX11Resource
        case D3d11ResourceKmt => DirectX11ResourceKMT
        case Nvscibuf => NvSciBuf;
      assert AvailableOn(t, p) && ToNative(t) == c;
    }
  }
}
