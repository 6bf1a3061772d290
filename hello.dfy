/** The `hello` contract's action set (`hi`, `check`, `transfer`) as a
    dispatch table. The selectors `wasm::name("hi").value` and so on are
    given, not computed; `hi` and `check` take one `name`, so they share a
    decoder, and `transfer` has its own. */
module HelloContract {
  import opened Types
  import opened DispatchSpec
  import opened Dispatcher

  function HelloTable<V>(hi: uint64, check: uint64, transfer: uint64,
                         decodeName: Decoder<V>, decodeTransfer: Decoder<V>): (table: seq<Action<V>>)
  {
    [Action("hi", hi, decodeName), Action("check", check, decodeName), Action("transfer", transfer, decodeTransfer)]
  }

  /** Distinct selectors make the generated switch well formed. */
  lemma HelloWellFormed<V>(hi: uint64, check: uint64, transfer: uint64,
                           decodeName: Decoder<V>, decodeTransfer: Decoder<V>)
    requires hi != check && hi != transfer && check != transfer
    ensures WellFormed(HelloTable(hi, check, transfer, decodeName, decodeTransfer))
  {
  }

  /** Action `hi` with a payload that decodes to one name runs the `hi`
      handler on that name, once, and never `check` or `transfer`. */
  lemma HelloHiRunsOnlyHi<V>(receiver: uint64, hi: uint64, check: uint64, transfer: uint64,
                             decodeName: Decoder<V>, decodeTransfer: Decoder<V>,
                             payload: seq<byte>, nm: V)
    requires hi != check && hi != transfer && check != transfer
    requires decodeName(payload) == Some([nm])
    ensures var t := ApplyTrace(Standard, receiver, receiver, hi, payload,
                                HelloTable(hi, check, transfer, decodeName, decodeTransfer));
            var inv := Invoke("hi", Context(receiver, receiver), [nm]);
            && Once(t, inv) && OnlyHandler(t, inv)
            && (forall k :: 0 <= k < |t| && t[k].Invoke? ==> t[k].handler != "check" && t[k].handler != "transfer")
  {
    var table := HelloTable(hi, check, transfer, decodeName, decodeTransfer);
    HelloWellFormed(hi, check, transfer, decodeName, decodeTransfer);
    DeclaredActionRunsItsHandler(Standard, receiver, receiver, hi, payload, table, 0);
    assert table[1].name == "check" && table[2].name == "transfer";
  }

  /** A notification (code other than the receiver) reaching a contract
      built with `WASM_DISPATCH` leaves nothing in the guest's log. */
  method HelloNotificationIgnored<V>(g: Guest<V>, receiver: uint64, code: uint64, hi: uint64,
                                     check: uint64, transfer: uint64, decodeName: Decoder<V>,
                                     decodeTransfer: Decoder<V>, payload: seq<byte>)
    requires g.Valid() && code != receiver
    modifies g
    ensures g.Valid() && g.log == old(g.log) && g.heapInUse == old(g.heapInUse)
  {
    g.Apply(Standard, receiver, code, hi, payload, HelloTable(hi, check, transfer, decodeName, decodeTransfer));
  }
}
