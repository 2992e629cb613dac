/** The start-up of src/msr_core.c: stat_module and the restartable loop of init_msr, which opens one
    descriptor a device from the msr_safe interface and starts over with the msr interface when that
    one turns out not to be usable. */
module MsrInit {

  datatype Family = Safe | Msr

  /** What stat says of a file: not there, there without the permissions, or usable. */
  datatype StatAnswer = Missing | Denied | Usable

  /** The answers of the kernel. No file is looked at twice in one call, so that one answer a file is
      general. */
  datatype Kernel = Kernel(whitelist: StatAnswer, stat: (Family, nat) -> StatAnswer, opens: (Family, nat) -> bool)

  /** A device's file can be looked at and opened. */
  predicate Works(k: Kernel, f: Family, dev: nat) {
    k.stat(f, dev) == Usable && k.opens(f, dev)
  }

  predicate AllWork(k: Kernel, f: Family, n: nat) {
    forall d :: 0 <= d < n ==> Works(k, f, d)
  }

  /** The first msr_safe file that does not work is one that makes the loop start over: it is missing or
      cannot be opened. One with the wrong permissions is an error at once. */
  predicate BreaksAt(k: Kernel, n: nat, d: nat) {
    && d < n && AllWork(k, Safe, d) && !Works(k, Safe, d) && k.stat(Safe, d) != Denied
  }

  /** init_msr ends up using the msr interface. */
  ghost predicate FallsBack(k: Kernel, n: nat) {
    k.whitelist != Usable || exists d: nat :: BreaksAt(k, n, d)
  }

  /** The interface init_msr ends up with, when it succeeds. */
  function Chosen(k: Kernel, n: nat): Family {
    if k.whitelist == Usable && AllWork(k, Safe, n) then Safe else Msr
  }

  /** An entry of file_descriptors. */
  datatype Descriptor = None | Failed | Open(family: Family, dev: nat)

  // The values of kerneltype: not looked at yet, msr_safe, msr.
  const UNKNOWN := 3
  const SAFE := 0
  const PLAIN := 1

  function FamilyOf(kerneltype: int): Family {
    if kerneltype != 0 then Msr else Safe
  }

  /** stat_module, given what stat says of the file. */
  method StatModule(answer: StatAnswer, kerneltype: int, devIdx: int) returns (ret: int, kerneltype': int, devIdx': int)
    ensures kerneltype == UNKNOWN ==> kerneltype' == (if answer == Usable then SAFE else PLAIN) && devIdx' == devIdx
    ensures kerneltype != UNKNOWN && answer == Usable ==> ret == 0 && kerneltype' == kerneltype && devIdx' == devIdx
    ensures kerneltype == SAFE && answer == Missing ==> ret == 0 && kerneltype' == PLAIN && devIdx' == -1
    ensures kerneltype == SAFE && answer == Denied ==> ret == -1
    ensures kerneltype == PLAIN && answer != Usable ==> ret == -1
  {
    kerneltype', devIdx' := kerneltype, devIdx;
    if kerneltype == UNKNOWN {
      if answer != Usable {
        kerneltype' := PLAIN;
        return -1, kerneltype', devIdx';
      }
      kerneltype' := SAFE;
      return 0, kerneltype', devIdx';
    }
    if answer == Missing {
      if kerneltype != 0 {
        return -1, kerneltype', devIdx';
      }
      return 0, PLAIN, -1;
    }
    if answer == Denied {
      return -1, PLAIN, -1;
    }
    return 0, kerneltype', devIdx';
  }

  class MsrCore {
    const numDevs: nat
    const fileDescriptors: array<Descriptor>
    var init: bool

    predicate Valid() {
      fileDescriptors.Length == numDevs
    }

    constructor (numDevs: nat)
      ensures Valid() && !init && this.numDevs == numDevs && fresh(fileDescriptors)
    {
      this.numDevs := numDevs;
      fileDescriptors := new Descriptor[numDevs](_ => None);
      init := false;
    }

    /** The first n descriptors are those of the interface f. */
    predicate Opened(f: Family, n: nat)
      requires Valid() && n <= numDevs
      reads fileDescriptors
    {
      forall d :: 0 <= d < n ==> fileDescriptors[d] == Open(f, d)
    }

    /** init_msr terminates; its first run succeeds exactly when the interface it ends up with works for
        every device, and all descriptors are then of that one interface. */
    method InitMsr(k: Kernel) returns (ret: int)
      requires Valid()
      modifies this`init, fileDescriptors
      ensures ret == 0 || ret == -1
      ensures old(init) ==> ret == 0 && init && fileDescriptors[..] == old(fileDescriptors[..])
      ensures !old(init) ==> init == (ret == 0)
      ensures !old(init) ==>
        (ret == 0 <==> (k.whitelist == Usable && AllWork(k, Safe, numDevs)) || (FallsBack(k, numDevs) && AllWork(k, Msr, numDevs)))
      ensures !old(init) && ret == 0 ==> Opened(Chosen(k, numDevs), numDevs)
    {
      if init {
        return 0;
      }
      var kerneltype := UNKNOWN;
      var r, devIdx;
      r, kerneltype, devIdx := StatModule(k.whitelist, kerneltype, 0);
      devIdx := 0;
      while devIdx < numDevs
        invariant 0 <= devIdx <= numDevs && !init
        invariant kerneltype == SAFE || kerneltype == PLAIN
        invariant kerneltype == SAFE ==> k.whitelist == Usable
        invariant kerneltype == PLAIN ==> FallsBack(k, numDevs)
        invariant AllWork(k, FamilyOf(kerneltype), devIdx) && Opened(FamilyOf(kerneltype), devIdx)
        decreases kerneltype == SAFE, numDevs - devIdx
      {
        var family := FamilyOf(kerneltype);
        ghost var before := devIdx;
        r, kerneltype, devIdx := StatModule(k.stat(family, devIdx), kerneltype, devIdx);
        if r < 0 {
          FallingBackIsFinal(k, numDevs);
          assert !Works(k, family, before);
          if family == Safe {
            DeniedIsFinal(k, numDevs, before);
          }
          return -1;
        }
        if devIdx >= 0 {
          fileDescriptors[devIdx] := if k.opens(family, devIdx) then Open(family, devIdx) else Failed;
          if fileDescriptors[devIdx] == Failed {
            if kerneltype != 0 {
              FallingBackIsFinal(k, numDevs);
              assert !Works(k, Msr, before);
              return -1;
            }
            kerneltype := PLAIN;
            devIdx := -1;
          }
        }
        assert devIdx < 0 ==> BreaksAt(k, numDevs, before);
        devIdx := devIdx + 1;
      }
      FallingBackIsFinal(k, numDevs);
      init := true;
      return 0;
    }
  }

  /** A first failure for lack of permissions leaves no other first failure. */
  lemma DeniedIsFinal(k: Kernel, n: nat, d: nat)
    requires d < n && AllWork(k, Safe, d) && k.stat(Safe, d) == Denied && k.whitelist == Usable
    ensures !FallsBack(k, n)
  {
    forall e: nat
      ensures !BreaksAt(k, n, e)
    {
      assert !Works(k, Safe, d);
    }
  }

  /** A first failure for any other reason, a missing file or one that does not open, leads to the msr interface. */
  lemma MissingFallsBack(k: Kernel, n: nat, d: nat)
    requires k.whitelist == Usable && d < n
    requires forall e :: 0 <= e < d ==> k.stat(Safe, e) == Usable && k.opens(Safe, e)
    requires k.stat(Safe, d) == Missing || (k.stat(Safe, d) == Usable && !k.opens(Safe, d))
    ensures FallsBack(k, n) && !AllWork(k, Safe, n) && Chosen(k, n) == Msr
  {
    assert !Works(k, Safe, d);
    assert BreaksAt(k, n, d);
  }

  /** Once it falls back, the msr_safe interface does not work for every device. */
  lemma FallingBackIsFinal(k: Kernel, n: nat)
    ensures FallsBack(k, n) ==> k.whitelist != Usable || !AllWork(k, Safe, n)
  {
  }
}
