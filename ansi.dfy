/**
  The ANSI colour codes the status line writes. They are opaque constants:
  nothing here depends on how a terminal shows them.
 */
module Ansi {
  const Reset: string := "\U{1B}[0m"
  const Red: string := "\U{1B}[31m"
  const Green: string := "\U{1B}[32m"
  const Yellow: string := "\U{1B}[33m"
  const Magenta: string := "\U{1B}[35m"
  const Cyan: string := "\U{1B}[36m"
}
