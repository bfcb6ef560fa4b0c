/** The kernel-argument layout: every array passed to a kernel occupies four
    consecutive argument slots, its three extents and then its device buffer. */
module KernelArgs {

  /** The value given to one argument slot: an int extent or a buffer handle. */
  datatype ArgValue = IntArg(v: int) | BufferArg(handle: nat)

  /** What set_kernel_args reads from each array it is passed. */
  datatype ArrayArgs = ArrayArgs(dim1: int, dim2: int, dim3: int, device: nat)

  /** The four slots one array occupies, in binding order. */
  function SlotsOf(a: ArrayArgs): seq<ArgValue>
  {
    [IntArg(a.dim1), IntArg(a.dim2), IntArg(a.dim3), BufferArg(a.device)]
  }

  /** The slots of a whole argument list: the arrays' slots back to back. */
  function Layout(arrays: seq<ArrayArgs>): (slots: seq<ArgValue>)
    ensures |slots| == 4 * |arrays|
  {
    if arrays == [] then [] else Layout(arrays[..|arrays| - 1]) + SlotsOf(arrays[|arrays| - 1])
  }

  /** Reading a slot list back as arrays: slot group i gives array i. */
  function Unbind(slots: seq<ArgValue>): (arrays: seq<ArrayArgs>)
    requires |slots| % 4 == 0
    requires forall k :: 0 <= k < |slots| ==> (slots[k].IntArg? <==> k % 4 != 3)
    ensures |arrays| == |slots| / 4
  {
    seq(|slots| / 4, i requires 0 <= i < |slots| / 4 =>
      ArrayArgs(slots[4 * i].v, slots[4 * i + 1].v, slots[4 * i + 2].v, slots[4 * i + 3].handle))
  }

  /** Slot 4i+j of the layout is field j of array i. */
  lemma {:induction false} LayoutAt(arrays: seq<ArrayArgs>, i: nat, j: nat)
    requires i < |arrays| && j < 4
    ensures Layout(arrays)[4 * i + j] == SlotsOf(arrays[i])[j]
    decreases |arrays|
  {
    var init := arrays[..|arrays| - 1];
    assert Layout(arrays) == Layout(init) + SlotsOf(arrays[|arrays| - 1]);
    if i < |arrays| - 1 {
      LayoutAt(init, i, j);
      assert init[i] == arrays[i];
    }
  }

  /** The layout loses nothing: the arrays can be read back from their slots. */
  lemma UnbindLayout(arrays: seq<ArrayArgs>)
    ensures var slots := Layout(arrays);
      |slots| % 4 == 0 &&
      (forall k :: 0 <= k < |slots| ==> (slots[k].IntArg? <==> k % 4 != 3)) &&
      Unbind(slots) == arrays
  {
    var slots := Layout(arrays);
    forall k | 0 <= k < |slots| ensures slots[k].IntArg? <==> k % 4 != 3 {
      LayoutAt(arrays, k / 4, k % 4);
    }
    forall i | 0 <= i < |arrays| ensures Unbind(slots)[i] == arrays[i] {
      LayoutAt(arrays, i, 0);
      LayoutAt(arrays, i, 1);
      LayoutAt(arrays, i, 2);
      LayoutAt(arrays, i, 3);
    }
  }

  /** set_kernel_args: binds the arrays one after the other with a running
      argument index; the function returns nothing. */
  method SetKernelArgs(arrays: seq<ArrayArgs>) returns (slots: seq<ArgValue>)
    ensures slots == Layout(arrays)
    ensures |slots| == 4 * |arrays|
    ensures forall i :: 0 <= i < |arrays| ==>
      slots[4 * i] == IntArg(arrays[i].dim1) && slots[4 * i + 1] == IntArg(arrays[i].dim2) &&
      slots[4 * i + 2] == IntArg(arrays[i].dim3) && slots[4 * i + 3] == BufferArg(arrays[i].device)
  {
    slots := [];
    var argIndex := 0;
    var i := 0;
    while i < |arrays|
      invariant 0 <= i <= |arrays|
      invariant slots == Layout(arrays[..i])
      invariant argIndex == |slots| == 4 * i
    {
      var arr := arrays[i];
      assert arrays[..i + 1][..i] == arrays[..i];
      slots := slots + [IntArg(arr.dim1)];
      argIndex := argIndex + 1;
      slots := slots + [IntArg(arr.dim2)];
      argIndex := argIndex + 1;
      slots := slots + [IntArg(arr.dim3)];
      argIndex := argIndex + 1;
      slots := slots + [BufferArg(arr.device)];
      argIndex := argIndex + 1;
      i := i + 1;
    }
    assert arrays[..i] == arrays;
    forall i | 0 <= i < |arrays|
      ensures slots[4 * i] == IntArg(arrays[i].dim1) && slots[4 * i + 1] == IntArg(arrays[i].dim2) &&
        slots[4 * i + 2] == IntArg(arrays[i].dim3) && slots[4 * i + 3] == BufferArg(arrays[i].device)
    {
      LayoutAt(arrays, i, 0);
      LayoutAt(arrays, i, 1);
      LayoutAt(arrays, i, 2);
      LayoutAt(arrays, i, 3);
    }
  }

  // ---------------------------------------------------------------- the stride argument's index

  /** The propagate kernel's parameters, in order. */
  const PropagateParams: seq<string> := ["a1", "a2", "a3", "A", "stride"]

  /** The value a C call expression yields: none for a void function. */
  datatype CallValue = NoValue | IntValue(n: int)

  /** The expression SET_KERNEL_ARGS expands to: a call of set_kernel_args. */
  function SetKernelArgsCall(arrays: seq<ArrayArgs>): CallValue
  {
    NoValue
  }

  /** scan initialises its `int idx` from SET_KERNEL_ARGS, a call that yields
      no value, so there is no int to give idx and the initialisation does not
      compile. */
  lemma StrideIndexFromVoid(arrays: seq<ArrayArgs>)
    ensures !SetKernelArgsCall(arrays).IntValue?
  {
  }

  /** set_kernel_args returning its final argument index: 4 per array, which
      after the one array of the propagate kernel is the index of its stride
      parameter. */
  method SetKernelArgsCounted(arrays: seq<ArrayArgs>) returns (slots: seq<ArgValue>, argIndex: nat)
    ensures slots == Layout(arrays)
    ensures argIndex == |slots| == 4 * |arrays|
    ensures |arrays| == 1 ==> argIndex < |PropagateParams| && PropagateParams[argIndex] == "stride"
  {
    slots := SetKernelArgs(arrays);
    argIndex := |slots|;
  }
}
