/** The signature-algorithm table whose `usable` flags startup clears
    for the host-key types it has no key for. */
module Registry {
  import opened KeyTypes

  /** The code an entry is matched on: the code of a host-key type, or a
      signature code that no key type shares. */
  datatype AlgVal = KeyCode(t: KeyType) | OtherCode(code: int)

  datatype AlgDescriptor = AlgDescriptor(name: string, val: AlgVal, usable: bool)

  type Table = seq<AlgDescriptor>

  /** `reg[i]` is the first entry of the table that carries its code. */
  predicate FirstWithVal(reg: Table, i: int) {
    0 <= i < |reg| && forall j :: 0 <= j < i ==> reg[j].val != reg[i].val
  }

  /** `reg[i]` is the entry that disabling `t` clears: the first one whose
      code is that of `t`. */
  predicate Targets(reg: Table, i: int, t: KeyType) {
    0 <= i < |reg| && reg[i].val == KeyCode(t) && FirstWithVal(reg, i)
  }

  /** Clears `usable` on the first entry whose code is that of `t`; no other
      entry and no other field changes, and a table without such an entry
      comes back as it was. */
  function Disable(reg: Table, t: KeyType): (r: Table)
    ensures |r| == |reg|
    ensures forall i :: 0 <= i < |reg| ==>
              r[i] == reg[i].(usable := reg[i].usable && !Targets(reg, i, t))
    decreases |reg|
  {
    if reg == [] then []
    else if reg[0].val == KeyCode(t) then [reg[0].(usable := false)] + reg[1..]
    else
      var rest := Disable(reg[1..], t);
      assert forall i :: 1 <= i < |reg| ==> (Targets(reg, i, t) <==> Targets(reg[1..], i - 1, t));
      [reg[0]] + rest
  }

  /** `r` is `reg` with the flag cleared on the entry that disabling each
      type of `ts` clears, and on no other entry. */
  predicate DisabledExactly(reg: Table, r: Table, ts: set<KeyType>) {
    && |r| == |reg|
    && forall i :: 0 <= i < |reg| ==>
         r[i] == reg[i].(usable := reg[i].usable &&
                         !(reg[i].val.KeyCode? && reg[i].val.t in ts && FirstWithVal(reg, i)))
  }

  /** Disabling one more type extends the set of disabled types: successive
      calls compose, in any order, into one clearing pass. */
  lemma DisableExtends(reg: Table, mid: Table, ts: set<KeyType>, t: KeyType)
    requires DisabledExactly(reg, mid, ts)
    ensures DisabledExactly(reg, Disable(mid, t), ts + {t})
  {
  }

  /** The pass starts from a table in which nothing is disabled yet. */
  lemma NothingDisabled(reg: Table)
    ensures DisabledExactly(reg, reg, {})
  {
  }
}
