/** Result types shared by the modules. */
module Wrappers {
  import opened Pte

  datatype Option<+T> = None | Some(value: T)

  datatype MapError = Unaligned | AlreadyMapped | NotMapped | OutOfMemory | InvalidArgs

  datatype Result<+T> = Ok(value: T) | Err(error: MapError)

  datatype TranslateError = NotPresent | InvalidAddress

  datatype TranslateResult = Physical(paddr: PhysAddr) | Fault(reason: TranslateError)
}
