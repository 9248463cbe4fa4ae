/** Admission of a load against device memory (src/admission.rs).  Sizes are reals: rounding
    of the source's 32-bit floats is not modelled. */
module Admissions {
  import opened Wrappers

  const ADMISSION_MARGIN_GIB: real := 1.0

  /** What the memory probe answers: free memory now, and the device's total. */
  datatype Probe = Probe(free: Option<real>, total: Option<real>)

  datatype FreeMemory =
    | Probed(probedGib: real)
    | Accounted(totalGib: real, loadedGib: real)
    | Unknown
  {
    function Gib(): real {
      match this
      case Probed(gib) => gib
      case Accounted(total, loaded) => if total - loaded >= 0.0 then total - loaded else 0.0
      case Unknown => 0.0
    }
  }

  /** What the probe measures, or else the total less what is accounted as loaded. */
  function FreeNow(probe: Probe, loadedGib: real): FreeMemory {
    match probe.free
    case Some(gib) => Probed(gib)
    case None =>
      match probe.total
      case Some(total) => Accounted(total, loadedGib)
      case None => Unknown
  }

  predicate Admit(neededGib: real, free: FreeMemory) {
    !free.Unknown? && neededGib <= free.Gib() - ADMISSION_MARGIN_GIB
  }

  /** Free memory as a swap may count on it: what is free now and what it gives back
      (src/host.rs). */
  function Credit(free: FreeMemory, freedGib: real): FreeMemory {
    match free
    case Unknown => Unknown
    case other => if freedGib == 0.0 then other else Probed(other.Gib() + freedGib)
  }

  /** What one swap's admission promises when memory is accounted: what stays plus the
      newcomer plus the margin fits the device, for every admitted newcomer, exactly when the
      device was not over-committed before, or the swap frees less than the margin and then admits
      nobody.  (Above the total, free memory is clamped to zero before the credit is added.) */
  lemma SwapFitsIff(total: real, counted: real, freed: real)
    requires freed >= 0.0
    ensures counted <= total || freed < ADMISSION_MARGIN_GIB <==>
            forall needed: real ::
              needed >= 0.0 && Admit(needed, Credit(FreeNow(Probe(None, Some(total)), counted), freed))
              ==> counted - freed + needed + ADMISSION_MARGIN_GIB <= total
  {
    if counted > total && freed >= ADMISSION_MARGIN_GIB {
      var needed := freed - ADMISSION_MARGIN_GIB;
      assert Admit(needed, Credit(FreeNow(Probe(None, Some(total)), counted), freed));
    }
  }
}
