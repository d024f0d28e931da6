/** Turning the loaded bundle into the final `usable` flags of the
    signature-algorithm table, and the whole host-key startup pass. */
module Resolver {
  import opened Outcomes
  import opened KeyTypes
  import opened Registry
  import opened Loader

  /** Some slot the build has holds a key. */
  predicate AnyHostKey(f: Features, b: Bundle) {
    exists t :: HasSlot(f, t) && t in b
  }

  /** Some ECDSA slot the build has holds a key. */
  predicate AnyEcdsaLoaded(f: Features, b: Bundle) {
    exists t :: IsEcdsa(t) && HasSlot(f, t) && t in b
  }

  /** The enablement policy, stated per key type: a single-key family is
      disabled when its slot is empty; an ECDSA size is disabled when its
      slot is empty and either some ECDSA key was loaded or it is not the
      default size; a security-key variant is disabled, whatever the bundle
      holds, in builds that have it. */
  predicate ShouldDisable(f: Features, b: Bundle, t: KeyType) {
    match t
    case Rsa => f.rsa && t !in b
    case Dss => f.dss && t !in b
    case Ed25519 => f.ed25519 && t !in b
    case EcdsaNistp256 | EcdsaNistp384 | EcdsaNistp521 =>
      HasSlot(f, t) && t !in b && (AnyEcdsaLoaded(f, b) || EcdsaSize(t) != f.ecdsaDefaultSize)
    case SkEcdsaNistp256 => f.skEcdsa
    case SkEd25519 => f.skEd25519
    case Any => false
  }

  /** `r` is `reg` with the flag cleared exactly on the entries the policy
      disables: the first entry carrying the code of each disabled type. */
  predicate Resolved(f: Features, b: Bundle, reg: Table, r: Table) {
    && |r| == |reg|
    && forall i :: 0 <= i < |reg| ==>
         r[i] == reg[i].(usable := reg[i].usable &&
                         !(reg[i].val.KeyCode? && FirstWithVal(reg, i) && ShouldDisable(f, b, reg[i].val.t)))
  }

  function DisableIf(reg: Table, cond: bool, t: KeyType): Table {
    if cond then Disable(reg, t) else reg
  }

  /** A conditional disable step adds its type to the disabled set exactly
      when its condition holds. */
  lemma DisableIfExtends(reg: Table, mid: Table, ts: set<KeyType>, cond: bool, t: KeyType)
    requires DisabledExactly(reg, mid, ts)
    ensures DisabledExactly(reg, DisableIf(mid, cond, t), if cond then ts + {t} else ts)
  {
    if cond {
      DisableExtends(reg, mid, ts, t);
    }
  }

  /** The source's loaded_any_ecdsa: an ECDSA slot of a compiled size holds a key. */
  function LoadedAnyEcdsa(f: Features, b: Bundle): (r: bool)
    ensures r <==> AnyEcdsaLoaded(f, b)
  {
    var r := f.ecdsa &&
      ((f.ecc256 && EcdsaNistp256 in b) || (f.ecc384 && EcdsaNistp384 in b) || (f.ecc521 && EcdsaNistp521 in b));
    assert r <==> AnyEcdsaLoaded(f, b) by {
      if AnyEcdsaLoaded(f, b) {
        var t :| IsEcdsa(t) && HasSlot(f, t) && t in b;
      } else {
        assert !(IsEcdsa(EcdsaNistp256) && HasSlot(f, EcdsaNistp256) && EcdsaNistp256 in b);
        assert !(IsEcdsa(EcdsaNistp384) && HasSlot(f, EcdsaNistp384) && EcdsaNistp384 in b);
        assert !(IsEcdsa(EcdsaNistp521) && HasSlot(f, EcdsaNistp521) && EcdsaNistp521 in b);
      }
    }
    r
  }

  /** The source's any_keys: the RSA, DSS or ED25519 slot, or an ECDSA slot
      of a compiled size, holds a key; exactly when some slot the build has
      is filled. */
  function AnyKeys(f: Features, b: Bundle): (r: bool)
    ensures r <==> AnyHostKey(f, b)
  {
    var r := (f.rsa && Rsa in b) || (f.dss && Dss in b) || LoadedAnyEcdsa(f, b) || (f.ed25519 && Ed25519 in b);
    assert r <==> AnyHostKey(f, b) by {
      if AnyHostKey(f, b) {
        var t :| HasSlot(f, t) && t in b;
        assert IsEcdsa(t) ==> AnyEcdsaLoaded(f, b);
      } else {
        assert !(HasSlot(f, Rsa) && Rsa in b);
        assert !(HasSlot(f, Dss) && Dss in b);
        assert !(HasSlot(f, Ed25519) && Ed25519 in b);
        assert !AnyEcdsaLoaded(f, b);
      }
    }
    r
  }

  /** One conditional `disablekey` call of the pass. */
  datatype Step = Step(when: bool, t: KeyType)

  /** The pass's calls in the order the server makes them: RSA, DSS, the
      ECDSA sizes, ED25519, then the security-key variants. */
  function PolicySteps(f: Features, b: Bundle): (r: seq<Step>)
    ensures |r| == 8
    ensures && r[0].t == Rsa && r[1].t == Dss && r[2].t == EcdsaNistp256 && r[3].t == EcdsaNistp384
            && r[4].t == EcdsaNistp521 && r[5].t == Ed25519 && r[6].t == SkEcdsaNistp256 && r[7].t == SkEd25519
    ensures forall i :: 0 <= i < 6 && r[i].when ==> HasSlot(f, r[i].t) && r[i].t !in b
    ensures r[6].when == f.skEcdsa && r[7].when == f.skEd25519
  {
    var loadedAny := LoadedAnyEcdsa(f, b);
    [ Step(f.rsa && Rsa !in b, Rsa),
      Step(f.dss && Dss !in b, Dss),
      Step(f.ecdsa && f.ecc256 && EcdsaNistp256 !in b && (loadedAny || f.ecdsaDefaultSize != 256), EcdsaNistp256),
      Step(f.ecdsa && f.ecc384 && EcdsaNistp384 !in b && (loadedAny || f.ecdsaDefaultSize != 384), EcdsaNistp384),
      Step(f.ecdsa && f.ecc521 && EcdsaNistp521 !in b && (loadedAny || f.ecdsaDefaultSize != 521), EcdsaNistp521),
      Step(f.ed25519 && Ed25519 !in b, Ed25519),
      Step(f.skEcdsa, SkEcdsaNistp256),
      Step(f.skEd25519, SkEd25519) ]
  }

  /** Runs the calls in order. */
  function ApplySteps(reg: Table, steps: seq<Step>): Table
    decreases |steps|
  {
    if steps == [] then reg
    else ApplySteps(DisableIf(reg, steps[0].when, steps[0].t), steps[1..])
  }

  /** The types the calls that fire disable. */
  function Fired(steps: seq<Step>): set<KeyType> {
    set i | 0 <= i < |steps| && steps[i].when :: steps[i].t
  }

  /** Running a list of calls clears exactly the entries its firing calls
      target, whatever their order. */
  lemma {:induction false} ApplyStepsExact(reg: Table, mid: Table, ts: set<KeyType>, steps: seq<Step>)
    requires DisabledExactly(reg, mid, ts)
    ensures DisabledExactly(reg, ApplySteps(mid, steps), ts + Fired(steps))
    decreases |steps|
  {
    if steps != [] {
      var ts' := if steps[0].when then ts + {steps[0].t} else ts;
      DisableIfExtends(reg, mid, ts, steps[0].when, steps[0].t);
      ApplyStepsExact(reg, DisableIf(mid, steps[0].when, steps[0].t), ts', steps[1..]);
      assert Fired(steps) == (if steps[0].when then {steps[0].t} else {}) + Fired(steps[1..]) by {
        forall i | 1 <= i < |steps| ensures steps[i] == steps[1..][i - 1] {
        }
      }
    }
  }

  /** The calls the server makes fire for exactly the types the policy
      disables. */
  lemma PolicyStepsFire(f: Features, b: Bundle, t: KeyType)
    ensures t in Fired(PolicySteps(f, b)) <==> ShouldDisable(f, b, t)
  {
  }

  /** The disabling half of the pass; it clears exactly the flags the
      policy disables. */
  function DisablePass(f: Features, b: Bundle, reg: Table): (r: Table)
    ensures Resolved(f, b, reg, r)
  {
    var r := ApplySteps(reg, PolicySteps(f, b));
    NothingDisabled(reg);
    ApplyStepsExact(reg, reg, {}, PolicySteps(f, b));
    assert {} + Fired(PolicySteps(f, b)) == Fired(PolicySteps(f, b));
    forall t ensures t in Fired(PolicySteps(f, b)) <==> ShouldDisable(f, b, t) {
      PolicyStepsFire(f, b, t);
    }
    r
  }

  /** The enablement pass: clears the flags the policy disables, then ends
      startup unless some host key is available. */
  function Resolve(f: Features, b: Bundle, reg: Table): (r: Outcome<Table>)
    ensures !r.Stalled?
    ensures r.Done? <==> AnyHostKey(f, b)
    ensures r.Abort? ==> r.reason == NoHostKeys
    ensures r.Abort? ==> Message(r.reason) == "No hostkeys available. Specify any with -r <keyfile> options."
    ensures r.Done? ==> Resolved(f, b, reg, r.value)
  {
    if AnyKeys(f, b) then Done(DisablePass(f, b, reg)) else Abort(NoHostKeys)
  }

  /** Flags only ever go from usable to unusable, and entries with no key
      code, or behind an earlier entry with the same code, are left alone. */
  lemma FlagsOnlyCleared(f: Features, b: Bundle, reg: Table)
    requires Resolve(f, b, reg).Done?
    ensures var r := Resolve(f, b, reg).value;
      && |r| == |reg|
      && (forall i :: 0 <= i < |reg| ==> (r[i].usable ==> reg[i].usable))
      && (forall i :: 0 <= i < |reg| && (reg[i].val.OtherCode? || !FirstWithVal(reg, i)) ==> r[i] == reg[i])
  {
  }

  /** A type whose slot holds a key keeps its entry as usable as it was:
      every loaded family or size is advertised. */
  lemma LoadedKeysStayUsable(f: Features, b: Bundle, reg: Table, i: int, t: KeyType)
    requires Resolve(f, b, reg).Done?
    requires IsSlot(t) && t in b && Targets(reg, i, t)
    ensures Resolve(f, b, reg).value[i] == reg[i]
  {
  }

  /** RSA, DSS and ED25519: the entry for the family stays usable exactly
      when its slot holds a key. */
  lemma SingleKeyFamilyRule(f: Features, b: Bundle, reg: Table, i: int, t: KeyType)
    requires Resolve(f, b, reg).Done?
    requires t == Rsa || t == Dss || t == Ed25519
    requires HasSlot(f, t) && Targets(reg, i, t)
    ensures Resolve(f, b, reg).value[i].usable <==> reg[i].usable && t in b
  {
  }

  /** Once some ECDSA key is loaded, only the sizes with a loaded key can
      stay usable. */
  lemma EcdsaLoadedSizesOnly(f: Features, b: Bundle, reg: Table, i: int, t: KeyType)
    requires Resolve(f, b, reg).Done?
    requires AnyEcdsaLoaded(f, b)
    requires IsEcdsa(t) && HasSlot(f, t) && Targets(reg, i, t)
    ensures Resolve(f, b, reg).value[i].usable <==> reg[i].usable && t in b
  {
  }

  /** With no ECDSA key loaded, only the default size can stay usable. */
  lemma EcdsaDefaultSizeOnly(f: Features, b: Bundle, reg: Table, i: int, t: KeyType)
    requires Resolve(f, b, reg).Done?
    requires !AnyEcdsaLoaded(f, b)
    requires IsEcdsa(t) && HasSlot(f, t) && Targets(reg, i, t)
    ensures Resolve(f, b, reg).value[i].usable <==> reg[i].usable && EcdsaSize(t) == f.ecdsaDefaultSize
  {
  }

  /** In builds that have a security-key variant, its first entry ends up
      unusable whatever the bundle holds. */
  lemma SecurityKeysDisabled(f: Features, b: Bundle, reg: Table, i: int, t: KeyType)
    requires Resolve(f, b, reg).Done?
    requires (t == SkEcdsaNistp256 && f.skEcdsa) || (t == SkEd25519 && f.skEd25519)
    requires Targets(reg, i, t)
    ensures !Resolve(f, b, reg).value[i].usable
  {
  }

  /** At most one ECDSA slot of the build holds a key. */
  predicate AtMostOneEcdsaLoaded(f: Features, b: Bundle) {
    forall t1, t2 :: IsEcdsa(t1) && HasSlot(f, t1) && t1 in b && IsEcdsa(t2) && HasSlot(f, t2) && t2 in b ==> t1 == t2
  }

  /** A single ECDSA size is advertised when at most one ECDSA key was
      loaded: two usable ECDSA entries carry the same size. */
  lemma SingleEcdsaSizeAdvertised(f: Features, b: Bundle, reg: Table, i: int, j: int, t1: KeyType, t2: KeyType)
    requires Resolve(f, b, reg).Done?
    requires AtMostOneEcdsaLoaded(f, b)
    requires IsEcdsa(t1) && HasSlot(f, t1) && Targets(reg, i, t1)
    requires IsEcdsa(t2) && HasSlot(f, t2) && Targets(reg, j, t2)
    requires Resolve(f, b, reg).value[i].usable && Resolve(f, b, reg).value[j].usable
    ensures t1 == t2
  {
  }

  /** Without the at-most-one condition, two ECDSA sizes stay advertised:
      a bundle holding a 256-bit and a 384-bit key leaves both usable. */
  lemma TwoEcdsaSizesAdvertised(k: Key)
    ensures var f := Features(true, true, true, true, true, true, true, true, true, 256);
      var b := map[EcdsaNistp256 := k, EcdsaNistp384 := k];
      var reg := [AlgDescriptor("ecdsa-sha2-nistp256", KeyCode(EcdsaNistp256), true),
                  AlgDescriptor("ecdsa-sha2-nistp384", KeyCode(EcdsaNistp384), true)];
      Resolve(f, b, reg).Done? && Resolve(f, b, reg).value[0].usable && Resolve(f, b, reg).value[1].usable
  {
  }

  /** The environment's answers for the four key files the server loads. */
  datatype HostKeyFiles = HostKeyFiles(rsa: seq<Round>, dss: seq<Round>, ecdsa: seq<Round>, ed25519: seq<Round>)

  /** The position of a family in the server's load order. */
  function CallRank(t: KeyType): nat {
    match t
    case Rsa => 0
    case Dss => 1
    case Ed25519 => 3
    case _ => 2
  }

  /** The build has the family a load call requests. */
  predicate FamilyBuilt(f: Features, t: KeyType) {
    match t
    case Rsa => f.rsa
    case Dss => f.dss
    case EcdsaNistp256 | EcdsaNistp384 | EcdsaNistp521 => f.ecdsa
    case Ed25519 => f.ed25519
    case _ => false
  }

  /** The calls are in strictly increasing load-order position. */
  predicate Ascending(fs: seq<KeyFile>) {
    forall i, j :: 0 <= i < j < |fs| ==> CallRank(fs[i].requested) < CallRank(fs[j].requested)
  }

  /** The calls for the families the build has, in their original order. */
  function KeepBuilt(f: Features, fs: seq<KeyFile>): (r: seq<KeyFile>)
    ensures forall x :: x in r <==> x in fs && FamilyBuilt(f, x.requested)
    decreases |fs|
  {
    if fs == [] then []
    else
      var rest := KeepBuilt(f, fs[1..]);
      assert forall x :: x in fs <==> x == fs[0] || x in fs[1..];
      if FamilyBuilt(f, fs[0].requested) then [fs[0]] + rest else rest
  }

  /** Dropping calls keeps the rest in order. */
  lemma {:induction false} KeepBuiltAscending(f: Features, fs: seq<KeyFile>)
    requires Ascending(fs)
    ensures Ascending(KeepBuilt(f, fs))
    decreases |fs|
  {
    if fs != [] {
      var rest := KeepBuilt(f, fs[1..]);
      assert Ascending(fs[1..]);
      KeepBuiltAscending(f, fs[1..]);
      forall x | x in rest ensures CallRank(fs[0].requested) < CallRank(x.requested) {
        var k :| 0 <= k < |fs[1..]| && fs[1..][k] == x;
        assert fs[k + 1] == x;
      }
    }
  }

  /** The load calls in the order the server makes them, each for a family
      the build has; the ECDSA file is generated as a 521-bit key. */
  function CallOrder(f: Features, files: HostKeyFiles): (r: seq<KeyFile>)
    ensures f.rsa <==> KeyFile(Rsa, files.rsa) in r
    ensures f.dss <==> KeyFile(Dss, files.dss) in r
    ensures f.ecdsa <==> KeyFile(EcdsaNistp521, files.ecdsa) in r
    ensures f.ed25519 <==> KeyFile(Ed25519, files.ed25519) in r
    ensures forall i :: 0 <= i < |r| ==>
              r[i] in [KeyFile(Rsa, files.rsa), KeyFile(Dss, files.dss),
                       KeyFile(EcdsaNistp521, files.ecdsa), KeyFile(Ed25519, files.ed25519)]
    ensures Ascending(r)
  {
    var all := [KeyFile(Rsa, files.rsa), KeyFile(Dss, files.dss),
                KeyFile(EcdsaNistp521, files.ecdsa), KeyFile(Ed25519, files.ed25519)];
    assert Ascending(all);
    KeepBuiltAscending(f, all);
    KeepBuilt(f, all)
  }

  /** A finished, duplicate-tolerant load holds some host key exactly when
      some file supplied a key for a slot the build has. */
  lemma LoadedBundleHasKey(f: Features, fs: seq<KeyFile>, b: Bundle)
    requires LoadSeq(f, map[], fs, false) == Done(b)
    ensures WellFormed(f, b) && forall t :: Get(b, t) == FirstProvided(f, fs, t)
    ensures AnyHostKey(f, b) <==> !(forall t :: FirstProvided(f, fs, t) == None)
  {
    var empty: Bundle := map[];
    FirstLoadWins(f, empty, fs);
    if AnyHostKey(f, b) {
      var t :| HasSlot(f, t) && t in b;
      assert Get(b, t).Some?;
      assert Get(b, t) == FirstProvided(f, fs, t);
    } else {
      assert WellFormed(f, empty);
      forall t ensures FirstProvided(f, fs, t) == None {
        assert Get(b, t) == FirstProvided(f, fs, t);
        assert t !in b;
      }
    }
  }

  /** The whole host-key startup: load every configured file into an empty
      bundle with non-fatal duplicates, then resolve the table. Each slot
      ends up with the key of the first file whose read detected its type;
      startup aborts, with "no hostkeys", exactly when no file supplied a
      key for a slot the build has. */
  function LoadAllHostKeys(f: Features, files: HostKeyFiles, reg: Table): (r: Outcome<(Bundle, Table)>)
    ensures r.Abort? ==> r.reason == NoHostKeys
    ensures r.Stalled? <==>
              (exists i :: 0 <= i < |CallOrder(f, files)| && ReadOrGenerate(CallOrder(f, files)[i].script).Unfinished?)
    ensures r.Done? ==> WellFormed(f, r.value.0) && AnyHostKey(f, r.value.0) && Resolved(f, r.value.0, reg, r.value.1)
    ensures r.Done? ==> forall t :: Get(r.value.0, t) == FirstProvided(f, CallOrder(f, files), t)
    ensures !r.Stalled? ==> (r.Abort? <==> forall t :: FirstProvided(f, CallOrder(f, files), t) == None)
  {
    var empty: Bundle := map[];
    match LoadSeq(f, empty, CallOrder(f, files), false)
    case Done(b) =>
      LoadedBundleHasKey(f, CallOrder(f, files), b);
      (match Resolve(f, b, reg)
       case Done(reg') => Done((b, reg'))
       case Abort(e) => Abort(e)
       case Stalled => Stalled)
    case Abort(e) => Abort(e)
    case Stalled => Stalled
  }
}
