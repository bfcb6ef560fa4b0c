/** The array container: a host block and a device buffer of the same shape,
    with the operations that allocate, copy between, clone and release them.
    Contents are modelled element by element; the byte counts the OpenCL calls
    receive are kept beside them. The device buffer is a value owned by the
    array; OpenCL's own allocator is not modelled. */
module Buffers {
  import opened Launch
  import ClErrors

  /** The cl_mem_flags bits of the OpenCL 1.2 headers that matter here. */
  const CL_MEM_READ_WRITE: bv64 := 1
  const CL_MEM_WRITE_ONLY: bv64 := 2
  const CL_MEM_READ_ONLY: bv64 := 4
  const CL_MEM_USE_HOST_PTR: bv64 := 8
  const CL_MEM_ALLOC_HOST_PTR: bv64 := 16
  const CL_MEM_COPY_HOST_PTR: bv64 := 32

  /** Buffer creation receives the host block exactly when the flags ask the
      runtime to copy from it or to use it. */
  predicate PassesHostPtr(flags: bv64)
  {
    flags & CL_MEM_COPY_HOST_PTR != 0 || flags & CL_MEM_USE_HOST_PTR != 0
  }

  lemma PassesHostPtrFlags()
    ensures PassesHostPtr(CL_MEM_READ_WRITE | CL_MEM_COPY_HOST_PTR)
    ensures PassesHostPtr(CL_MEM_READ_ONLY | CL_MEM_USE_HOST_PTR)
    ensures !PassesHostPtr(CL_MEM_READ_WRITE)
    ensures !PassesHostPtr(CL_MEM_WRITE_ONLY | CL_MEM_ALLOC_HOST_PTR)
  {
  }

  /** The element-type field: set from the allocation's type, or never
      written (an indeterminate value in C). */
  datatype TypeTag = Assigned(t: ArrayType) | Unassigned

  /** How an allocating operation ended: with the array, with the error
      report handed to the error hook (the default hook aborts), or with the
      status of a buffer creation the runtime refused (which the check hands
      to the hook). */
  datatype AllocStatus = Allocated | Failed(message: string) | BufferRefused(err: int)

  /** clCreateBuffer refuses a size of zero bytes. */
  function BufferStatus(bytes: nat): (s: AllocStatus)
    ensures s == Allocated <==> bytes > 0
    ensures s != Allocated ==> s == BufferRefused(ClErrors.CL_INVALID_BUFFER_SIZE)
  {
    if bytes == 0 then BufferRefused(ClErrors.CL_INVALID_BUFFER_SIZE) else Allocated
  }

  const ALLOC_ERROR: string := "Memory allocation error"
  const ALLOC_ERROR_NL: string := "Memory allocation error\n"

  /** The array struct: three extents, the element width, the type tag, the
      host block and the device buffer. */
  class ClArray {
    var dim1: nat
    var dim2: nat
    var dim3: nat
    var membsize: nat
    var tag: TypeTag
    var host: array<int>
    var device: seq<int>
    /** The size in bytes of the host block and of the device buffer. */
    var hostBytes: nat
    var deviceBytes: nat
    /** Whether buffer creation was handed the host block. */
    var hostPtrPassed: bool
    var hostLive: bool
    var deviceLive: bool

    function Shape(): Shape
      reads this
    {
      Launch.Shape(dim1, dim2, dim3)
    }

    /** membsize * ARRAY_SIZE(arr): the byte count of every whole-buffer
        transfer. */
    function Bytes(): nat
      reads this
    {
      membsize * ArraySize(Shape())
    }

    /** Both sides hold ARRAY_SIZE elements and Bytes() bytes. */
    ghost predicate Valid()
      reads this
    {
      host.Length == ArraySize(Shape()) && |device| == host.Length &&
      hostBytes == Bytes() && deviceBytes == Bytes()
    }

    /** A fresh pair of blocks sized for the shape: what alloc_array and
        clone_array build before filling them. The buffer starts as a copy of
        the host block when it is handed the block, and otherwise with the
        undefined contents `initial`; a buffer of zero bytes is refused and
        none exists. */
    constructor Init(shape: Launch.Shape, width: nat, t: TypeTag, flags: bv64, initial: seq<int>)
      requires |initial| == ArraySize(shape)
      ensures Valid() && fresh(host)
      ensures Shape() == shape && membsize == width && tag == t
      ensures hostPtrPassed == PassesHostPtr(flags)
      ensures hostLive && (deviceLive <==> Bytes() > 0)
      ensures device == if hostPtrPassed then host[..] else initial
    {
      dim1, dim2, dim3 := shape.dim1, shape.dim2, shape.dim3;
      membsize := width;
      tag := t;
      var n := ArraySize(shape);
      var block := new int[n];
      host := block;
      hostPtrPassed := PassesHostPtr(flags);
      device := if PassesHostPtr(flags) then block[..] else initial;
      hostBytes := n * width;
      deviceBytes := width * n;
      hostLive, deviceLive := true, width * n > 0;
    }

    /** sync_array_to_device: writes the whole host block into the device
        buffer from offset 0; the write blocks exactly when no event is asked
        for. */
    method SyncToDevice(eventGiven: bool) returns (blocking: bool, offset: nat, bytes: nat)
      requires Valid()
      modifies this
      ensures Valid()
      ensures device == host[..]
      ensures blocking == !eventGiven && offset == 0 && bytes == Bytes()
      ensures Shape() == old(Shape()) && membsize == old(membsize) && tag == old(tag)
      ensures host == old(host) && hostBytes == old(hostBytes) && deviceBytes == old(deviceBytes)
      ensures hostPtrPassed == old(hostPtrPassed) && hostLive == old(hostLive) && deviceLive == old(deviceLive)
    {
      blocking := !eventGiven;
      offset := 0;
      bytes := membsize * ArraySize(Shape());
      device := host[..];
    }

    /** sync_array_from_device: reads the whole device buffer into the host
        block from offset 0; it blocks exactly when no event is asked for. */
    method SyncFromDevice(eventGiven: bool) returns (blocking: bool, offset: nat, bytes: nat)
      requires Valid()
      modifies host
      ensures host[..] == device
      ensures blocking == !eventGiven && offset == 0 && bytes == Bytes()
    {
      blocking := !eventGiven;
      offset := 0;
      bytes := membsize * ArraySize(Shape());
      var i := 0;
      while i < host.Length
        invariant 0 <= i <= host.Length
        invariant forall k :: 0 <= k < i ==> host[k] == device[k]
      {
        host[i] := device[i];
        i := i + 1;
      }
    }

    /** Syncing to the device and back leaves the host contents as they were,
        and leaves both sides equal. */
    method SyncRoundTrip()
      requires Valid()
      modifies this, host
      ensures Valid()
      ensures host == old(host) && host[..] == old(host[..]) && device == host[..]
    {
      var _, _, _ := SyncToDevice(false);
      var _, _, _ := SyncFromDevice(false);
    }

    /** clone_array: new blocks of the same shape and width, the host contents
        copied, the device buffer filled by a device-to-device copy that is
        waited on. The type field of the clone is never written: the source
        assigns the original's field to itself instead. The original is not
        changed. */
    method Clone(flags: bv64, mallocOk: bool) returns (c: ClArray?, status: AllocStatus)
      requires Valid()
      ensures mallocOk <==> c != null
      ensures !mallocOk ==> status == Failed(ALLOC_ERROR_NL)
      ensures c != null ==> fresh(c) && fresh(c.host) && status == BufferStatus(Bytes()) && c.Valid()
      ensures c != null ==> c.Shape() == Shape() && c.membsize == membsize && c.tag == Unassigned
      ensures c != null ==> c.host[..] == host[..] && c.device == device
      ensures c != null ==> c.hostPtrPassed == PassesHostPtr(flags) && c.hostLive && (c.deviceLive <==> Bytes() > 0)
    {
      if !mallocOk {
        return null, Failed(ALLOC_ERROR_NL);
      }
      c := new ClArray.Init(Shape(), membsize, Unassigned, flags, device);
      CopyInto(c.host);
      c.device := device;
      status := BufferStatus(c.Bytes());
    }

    /** The corrected clone_array: the same, with the type field copied, as
        the header's description of the operation promises. */
    method CloneKeepingType(flags: bv64, mallocOk: bool) returns (c: ClArray?, status: AllocStatus)
      requires Valid()
      ensures mallocOk <==> c != null
      ensures !mallocOk ==> status == Failed(ALLOC_ERROR_NL)
      ensures c != null ==> fresh(c) && fresh(c.host) && status == BufferStatus(Bytes()) && c.Valid()
      ensures c != null ==> c.Shape() == Shape() && c.membsize == membsize && c.tag == tag
      ensures c != null ==> c.host[..] == host[..] && c.device == device
      ensures c != null ==> c.hostPtrPassed == PassesHostPtr(flags) && c.hostLive && (c.deviceLive <==> Bytes() > 0)
    {
      if !mallocOk {
        return null, Failed(ALLOC_ERROR_NL);
      }
      c := new ClArray.Init(Shape(), membsize, tag, flags, device);
      CopyInto(c.host);
      c.device := device;
      status := BufferStatus(c.Bytes());
    }

    /** memcpy of the whole host block into another block of the same length. */
    method CopyInto(dst: array<int>)
      requires dst.Length == host.Length && dst != host
      modifies dst
      ensures dst[..] == host[..]
    {
      var i := 0;
      while i < dst.Length
        invariant 0 <= i <= dst.Length
        invariant forall k :: 0 <= k < i ==> dst[k] == host[k]
      {
        dst[i] := host[i];
        i := i + 1;
      }
    }

    /** free_array: releases both the host block and the device buffer. */
    method Free()
      requires hostLive && deviceLive
      modifies this
      ensures !hostLive && !deviceLive
      ensures Shape() == old(Shape()) && membsize == old(membsize) && tag == old(tag)
      ensures host == old(host) && device == old(device)
      ensures hostBytes == old(hostBytes) && deviceBytes == old(deviceBytes) && hostPtrPassed == old(hostPtrPassed)
    {
      hostLive := false;
      deviceLive := false;
    }
  }

  /** alloc_array: records the extents, the type and its width, and sizes both
      blocks at dim1*dim2*dim3*membsize bytes; a failed host allocation is
      reported as "Memory allocation error", and a buffer of zero bytes is
      refused with CL_INVALID_BUFFER_SIZE. Without COPY_HOST_PTR or
      USE_HOST_PTR the buffer's contents are the undefined `initial`. */
  method AllocArray(t: ArrayType, flags: bv64, dim1: nat, dim2: nat, dim3: nat, mallocOk: bool, initial: seq<int>)
    returns (arr: ClArray?, status: AllocStatus)
    requires |initial| == ArraySize(Shape(dim1, dim2, dim3))
    ensures mallocOk <==> arr != null
    ensures !mallocOk ==> status == Failed(ALLOC_ERROR)
    ensures arr != null ==> fresh(arr) && arr.Valid() && status == BufferStatus(arr.deviceBytes)
    ensures arr != null ==> (status == Allocated <==> dim1 > 0 && dim2 > 0 && dim3 > 0)
    ensures arr != null ==> arr.Shape() == Shape(dim1, dim2, dim3) && arr.tag == Assigned(t)
    ensures arr != null ==> arr.membsize == SizeFromEnum(t) && arr.hostBytes == dim1 * dim2 * dim3 * SizeFromEnum(t)
    ensures arr != null ==> arr.hostPtrPassed == PassesHostPtr(flags) && arr.hostLive && (arr.deviceLive <==> status == Allocated)
    ensures arr != null ==> arr.device == if arr.hostPtrPassed then arr.host[..] else initial
  {
    if !mallocOk {
      return null, Failed(ALLOC_ERROR);
    }
    arr := new ClArray.Init(Shape(dim1, dim2, dim3), SizeFromEnum(t), Assigned(t), flags, initial);
    ZeroBytes(SizeFromEnum(t), Shape(dim1, dim2, dim3));
    status := BufferStatus(arr.deviceBytes);
  }

  /** The byte count of an array is zero exactly when one of its extents is,
      the width being at least 1. */
  lemma ZeroBytes(width: nat, s: Shape)
    requires width >= 1
    ensures width * ArraySize(s) > 0 <==> s.dim1 > 0 && s.dim2 > 0 && s.dim3 > 0
  {
    if ArraySize(s) > 0 {
      AtLeastProduct(width, ArraySize(s));
    }
  }

  lemma AtLeastProduct(a: nat, b: nat)
    requires a >= 1 && b >= 1
    ensures a * b >= 1
  {
  }

  /** ALLOC_ARRAY(type, flags, extents...): the C type name selects the tag,
      and each missing extent is 1. An unlisted type name does not compile. */
  method AllocArrayOf(typeName: string, flags: bv64, extents: seq<nat>, mallocOk: bool, initial: seq<int>)
    returns (arr: ClArray?, status: AllocStatus)
    requires 1 <= |extents| <= 3
    requires TypeToEnum(typeName).Some?
    requires |initial| == ArraySize(ShapeOfExtents(extents))
    ensures mallocOk <==> arr != null
    ensures arr != null ==> fresh(arr) && arr.Valid()
    ensures arr != null ==> Dims(arr.Shape())[..|extents|] == extents
    ensures arr != null ==> forall d :: |extents| <= d < 3 ==> Dims(arr.Shape())[d] == 1
    ensures arr != null ==> arr.tag == Assigned(TypeToEnum(typeName).value)
    ensures arr != null ==> TypeStrFromEnum(arr.tag.t) == typeName
  {
    var s := ShapeOfExtents(extents);
    arr, status := AllocArray(TypeToEnum(typeName).value, flags, s.dim1, s.dim2, s.dim3, mallocOk, initial);
  }

  /** The array struct of the older files: size_t extents, an untyped host
      block (void *) and no type tag. Its allocator never writes the width field. */
  class LegacyArray {
    var dim1: nat
    var dim2: nat
    var dim3: nat
    var membsizeSet: bool
    var host: array<int>
    var hostBytes: nat
    var deviceBytes: nat
    var hostPtrPassed: bool
    var hostLive: bool
    var deviceLive: bool

    constructor Init(d1: nat, d2: nat, d3: nat, width: nat, flags: bv64)
      ensures dim1 == d1 && dim2 == d2 && dim3 == d3 && !membsizeSet
      ensures host.Length == d1 * d2 * d3 && fresh(host)
      ensures hostBytes == d1 * d2 * d3 * width && deviceBytes == width * d1 * d2 * d3
      ensures hostPtrPassed == PassesHostPtr(flags) && hostLive && (deviceLive <==> deviceBytes > 0)
    {
      dim1, dim2, dim3 := d1, d2, d3;
      membsizeSet := false;
      var total := d1 * d2 * d3;
      host := new int[total];
      hostBytes := total * width;
      deviceBytes := width * d1 * d2 * d3;
      hostPtrPassed := PassesHostPtr(flags);
      hostLive, deviceLive := true, width * d1 * d2 * d3 > 0;
    }

    /** The older free_array: frees the host block only; the device buffer
        stays allocated. */
    method Free()
      requires hostLive
      modifies this
      ensures !hostLive && deviceLive == old(deviceLive)
      ensures dim1 == old(dim1) && dim2 == old(dim2) && dim3 == old(dim3) && host == old(host)
      ensures hostBytes == old(hostBytes) && deviceBytes == old(deviceBytes) && membsizeSet == old(membsizeSet)
    {
      hostLive := false;
    }
  }

  /** The older _alloc_array: the width comes from the caller (ALLOC_ARRAY
      passes sizeof(type)), the width field is never written, and a failed
      host allocation prints "Memory allocation error" and aborts. */
  method LegacyAllocArray(width: nat, flags: bv64, dim1: nat, dim2: nat, dim3: nat, mallocOk: bool)
    returns (arr: LegacyArray?, status: AllocStatus)
    ensures mallocOk <==> arr != null
    ensures !mallocOk ==> status == Failed(ALLOC_ERROR_NL)
    ensures arr != null ==> fresh(arr) && status == BufferStatus(arr.deviceBytes)
    ensures arr != null ==> (arr.deviceLive <==> status == Allocated)
    ensures arr != null ==> arr.dim1 == dim1 && arr.dim2 == dim2 && arr.dim3 == dim3 && !arr.membsizeSet
    ensures arr != null ==> arr.hostBytes == arr.deviceBytes == width * dim1 * dim2 * dim3
    ensures arr != null ==> arr.host.Length == dim1 * dim2 * dim3
    ensures arr != null ==> arr.hostPtrPassed == PassesHostPtr(flags)
  {
    if !mallocOk {
      return null, Failed(ALLOC_ERROR_NL);
    }
    arr := new LegacyArray.Init(dim1, dim2, dim3, width, flags);
    status := BufferStatus(arr.deviceBytes);
  }

  /** The older ALLOC_ARRAY(type, flags, extents...): sizeof(type) as the
      width, 1 for each missing extent. */
  method LegacyAllocArrayOf(sizeofType: nat, flags: bv64, extents: seq<nat>, mallocOk: bool)
    returns (arr: LegacyArray?, status: AllocStatus)
    requires 1 <= |extents| <= 3
    ensures mallocOk <==> arr != null
    ensures arr != null ==> fresh(arr)
    ensures arr != null ==> Dims(Shape(arr.dim1, arr.dim2, arr.dim3))[..|extents|] == extents
    ensures arr != null ==> forall d :: |extents| <= d < 3 ==> Dims(Shape(arr.dim1, arr.dim2, arr.dim3))[d] == 1
    ensures arr != null ==> arr.hostBytes == sizeofType * Product(extents)
  {
    var s := ShapeOfExtents(extents);
    assert s.dim1 * s.dim2 * s.dim3 == Product(extents);
    arr, status := LegacyAllocArray(sizeofType, flags, s.dim1, s.dim2, s.dim3, mallocOk);
  }

  /** A clone of an int array has no int type tag, while the corrected clone
      keeps it. */
  method CloneLosesType() returns (original: TypeTag, cloned: TypeTag, kept: TypeTag)
    ensures original == Assigned(TYPE_INT)
    ensures cloned == Unassigned && cloned != original
    ensures kept == original
  {
    var a, _ := AllocArray(TYPE_INT, CL_MEM_READ_WRITE, 4, 1, 1, true, [0, 0, 0, 0]);
    var c, _ := a.Clone(CL_MEM_READ_WRITE, true);
    var k, _ := a.CloneKeepingType(CL_MEM_READ_WRITE, true);
    original, cloned, kept := a.tag, c.tag, k.tag;
  }
}
