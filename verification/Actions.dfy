/** What an optimizer hands back to the SDK. */
module Actions {
  import opened Bytes

  const MAX_CONTENT_BYTES: nat := 16 * 1024 * 1024
  const USIZE_MAX: nat := U64_LIMIT - 1
  const ISIZE_MAX: nat := U64_LIMIT / 2 - 1

  datatype Action = Pass | Optimize(content: string)

  /** `Action::optimized(content).unwrap_or(Pass)`. */
  function Proposal(content: string): Action {
    if content == "" || '\0' in content || |content| > MAX_CONTENT_BYTES then Pass else Optimize(content)
  }
}
