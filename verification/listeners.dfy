/** The table of listening addresses built from the `-p [address:]port`
    options. */
module Listeners {
  import opened Outcomes

  /** Build-time settings: how many listeners fit, and the port and address
      used when none is given. */
  datatype PortOptions = PortOptions(maxPorts: nat, defPort: string, defAddress: string)

  datatype Listener = Listener(address: string, port: string)

  /** What splitting a `-p` argument answers: failure, or its address and
      port parts, either of which may be missing. */
  datatype SplitResult = SplitFailed | Split(address: Option<string>, port: Option<string>)

  /** A split answer with at least one part; with neither, the source would
      use a missing address as the port. */
  predicate HasPart(s: SplitResult) {
    s.Split? ==> s.address.Some? || s.port.Some?
  }

  /** An option startup rejects: one that does not split, or whose port
      part is empty. */
  predicate Rejected(s: SplitResult)
    requires HasPart(s)
  {
    s.SplitFailed? || (if s.port.Some? then s.port.value else s.address.value) == ""
  }

  /** The entry a good option yields: a bare value is the port, and a
      missing address becomes the default address. */
  function Entry(o: PortOptions, s: SplitResult): Listener
    requires s.Split? && HasPart(s)
  {
    if s.port.None? then Listener(o.defAddress, s.address.value)
    else Listener(s.address.GetOr(o.defAddress), s.port.value)
  }

  function Min(a: int, b: int): int { if a <= b then a else b }

  function Max(a: int, b: int): int { if a <= b then b else a }

  /** Adds one `-p` option to the table. A full table ignores the option
      altogether; otherwise a failed split or an empty port ends startup,
      and a good option appends one entry: a bare value is the port, and a
      missing address becomes the default address. */
  function AddPortAndAddress(o: PortOptions, table: seq<Listener>, s: SplitResult): (r: Outcome<seq<Listener>>)
    requires HasPart(s)
    ensures !r.Stalled?
    ensures |table| >= o.maxPorts ==> r == Done(table)
    ensures |table| < o.maxPorts && s.SplitFailed? ==> r == Abort(BadPortArgument)
    ensures r.Abort? <==> |table| < o.maxPorts && Rejected(s)
    ensures r.Abort? && s.Split? ==> r.reason == BadPort
    ensures r.Abort? ==> Message(r.reason) == if s.SplitFailed? then "Bad -p argument" else "Bad port"
    ensures r.Done? && |table| < o.maxPorts ==>
              && |r.value| == |table| + 1 && r.value[..|table|] == table && r.value[|table|].port != ""
    ensures r.Done? && |table| < o.maxPorts && s.port.None? ==>
              r.value[|table|] == Listener(o.defAddress, s.address.value)
    ensures r.Done? && |table| < o.maxPorts && s.port.Some? ==>
              r.value[|table|] == Listener(s.address.GetOr(o.defAddress), s.port.value)
  {
    if |table| >= o.maxPorts then Done(table)
    else if s.SplitFailed? then Abort(BadPortArgument)
    else
      var port := if s.port.None? then s.address else s.port;
      var address := if s.port.None? then None else s.address;
      var address' := if address.None? then o.defAddress else address.value;
      if port.value == "" then Abort(BadPort)
      else Done(table + [Listener(address', port.value)])
  }

  /** Adds the `-p` options in command-line order, stopping at the first
      fatal one. The table never grows past the limit, and grows by one
      for every option until it gets there. */
  function AddAll(o: PortOptions, table: seq<Listener>, specs: seq<SplitResult>): (r: Outcome<seq<Listener>>)
    requires forall i :: 0 <= i < |specs| ==> HasPart(specs[i])
    ensures !r.Stalled?
    ensures |table| >= o.maxPorts ==> r == Done(table)
    ensures r.Done? ==> table <= r.value
    ensures r.Done? && |table| < o.maxPorts ==> |r.value| == Min(|table| + |specs|, o.maxPorts)
    ensures r.Done? ==> forall i :: |table| <= i < |r.value| ==> r.value[i].port != ""
    ensures r.Abort? <==> exists i :: 0 <= i < Min(|specs|, o.maxPorts - |table|) && Rejected(specs[i])
    ensures r.Done? ==> forall i :: 0 <= i < |r.value| - |table| ==>
              specs[i].Split? && r.value[|table| + i] == Entry(o, specs[i])
    decreases |specs|
  {
    if specs == [] then Done(table)
    else
      match AddPortAndAddress(o, table, specs[0])
      case Done(t) =>
        var r := AddAll(o, t, specs[1..]);
        assert forall i :: 1 <= i < |specs| ==> specs[i] == specs[1..][i - 1];
        assert r.Done? && |table| < o.maxPorts ==> r.value[|table|] == t[|table|];
        r
      case Abort(e) => Abort(e)
      case Stalled => Stalled
  }

  /** Options past the limit are ignored silently, even malformed ones. */
  lemma {:induction false} IgnoredBeyondLimit(o: PortOptions, table: seq<Listener>, specs: seq<SplitResult>)
    requires forall i :: 0 <= i < |specs| ==> HasPart(specs[i])
    requires |table| <= o.maxPorts <= |table| + |specs|
    ensures AddAll(o, table, specs) == AddAll(o, table, specs[..o.maxPorts - |table|])
    decreases |specs|
  {
    var k := o.maxPorts - |table|;
    if k > 0 {
      assert specs[..k][0] == specs[0];
      assert specs[..k][1..] == specs[1..][..k - 1];
      match AddPortAndAddress(o, table, specs[0])
      case Done(t) =>
        IgnoredBeyondLimit(o, t, specs[1..]);
      case Abort(e) =>
      case Stalled =>
    } else {
      assert specs[..k] == [];
    }
  }

  /** The listening table after option parsing: the `-p` options, or the
      single default entry when the table ended up empty. */
  function ListenTable(o: PortOptions, specs: seq<SplitResult>): (r: Outcome<seq<Listener>>)
    requires forall i :: 0 <= i < |specs| ==> HasPart(specs[i])
    ensures !r.Stalled?
    ensures r.Done? ==> 1 <= |r.value| <= Max(1, o.maxPorts)
    ensures specs == [] ==> r == Done([Listener(o.defAddress, o.defPort)])
    ensures r.Abort? <==> exists i :: 0 <= i < Min(|specs|, o.maxPorts) && Rejected(specs[i])
    ensures r.Done? && 0 < |specs| && 0 < o.maxPorts ==>
              && |r.value| == Min(|specs|, o.maxPorts)
              && forall i :: 0 <= i < |r.value| ==> specs[i].Split? && r.value[i] == Entry(o, specs[i])
    ensures r.Done? && 0 < |specs| && 0 < o.maxPorts ==> forall i :: 0 <= i < |r.value| ==> r.value[i].port != ""
    ensures r.Done? && o.maxPorts == 0 ==> r.value == [Listener(o.defAddress, o.defPort)]
  {
    match AddAll(o, [], specs)
    case Done(t) => Done(if |t| == 0 then [Listener(o.defAddress, o.defPort)] else t)
    case Abort(e) => Abort(e)
    case Stalled => Stalled
  }
}
