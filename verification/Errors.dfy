/** The error codes of inc/error.h; system calls return them negated. */
module Errors {

  const E_BAD_ENV := 2
  const E_INVAL := 3
  const E_NO_MEM := 4
  const E_NO_FREE_ENV := 5
  const E_FAULT := 6
  const E_IPC_NOT_RECV := 7

  /** No code is taken for another, or for success. */
  lemma CodesDiffer()
    ensures forall i, j :: 0 <= i < j < |CODES| ==> CODES[i] != CODES[j] && CODES[i] > 0 && CODES[j] > 0
  {
  }

  const CODES: seq<int> := [E_BAD_ENV, E_INVAL, E_NO_MEM, E_NO_FREE_ENV, E_FAULT, E_IPC_NOT_RECV]
}
