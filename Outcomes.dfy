/** Failure-compatible result types used across the model. */
module Outcomes {

  datatype Option<+T> = None | Some(value: T)

  /**
   * The result of a step that may stop the process through a fatal check
   * (MACE_CHECK, MACE_CHECK_NOTNULL or LOG(FATAL)). `Fatal` carries the
   * check's message; in the running system the process ends there.
   */
  datatype Outcome<+T> = Ok(value: T) | Fatal(reason: string)

  /** The successful MaceStatus of a void operation. */
  const Success: Outcome<()> := Ok(())
}
