/** `connection::state` */
module States {
  const CONN_UNUSED := 0
  const CONN_ACCEPTING := 1
  const CONN_CONNECTING := 2
  const CONN_POLL := 3
  const CONN_SWAP_BUFFERS := 4
  const CONN_CLOSING := 5
  const CONN_ERROR := 6

  // The lower bits (`CONN_STATE_BITS`) encode the actual state.
  function ConnTag(state: nat): nat {
    state % 0x100
  }
}
