/** Loading one host-key file into the bundle: the read-or-generate loop,
    the dispatch on the detected key type and the take-if-empty merge. */
module Loader {
  import opened Outcomes
  import opened KeyTypes

  /** Opaque key material; its encoding is not part of this model. */
  datatype Key = Key(material: seq<bv8>)

  /** The host-key bundle: the key held in each slot; a slot that is not a
      key of the map is empty. */
  type Bundle = map<KeyType, Key>

  /** Only slots the build has can hold a key. */
  predicate WellFormed(f: Features, b: Bundle) {
    forall t :: t in b ==> HasSlot(f, t)
  }

  function Get(b: Bundle, t: KeyType): Option<Key> {
    if t in b then Some(b[t]) else None
  }

  /** What reading a key file answers: failure, or a key together with the
      type detected in the file. */
  datatype ReadResult = ReadFailed | ReadOk(detected: KeyType, key: Key)

  /** One pass of the read loop as the environment answers it: the read, and
      whether generating a key file succeeds if the read fails. */
  datatype Round = Round(read: ReadResult, generated: bool)

  /** A pass after which the loop reads again. */
  predicate Regenerates(r: Round) {
    r.read.ReadFailed? && r.generated
  }

  /** Where the read loop ends: with a key of the detected type, with none
      (the type stays `Any`), or not at all within the answers given. */
  datatype ReadOutcome = Loaded(detected: KeyType, key: Key) | NotLoaded | Unfinished

  /** How a pass that does not regenerate ends the loop. */
  function Exit(r: Round): ReadOutcome {
    match r.read
    case ReadOk(t, k) => Loaded(t, k)
    case ReadFailed => NotLoaded
  }

  /** Pass `i` is the one the loop stops at: every earlier pass regenerated
      and this one does not. */
  predicate EndsAt(script: seq<Round>, i: int) {
    && 0 <= i < |script|
    && !Regenerates(script[i])
    && forall j :: 0 <= j < i ==> Regenerates(script[j])
  }

  /** Reads the key file; while the read fails and generating a fresh file
      succeeds, reads again. The loop has exactly two exits: a successful
      read, or a failed generation. */
  function ReadOrGenerate(script: seq<Round>): (r: ReadOutcome)
    ensures r.Unfinished? <==> forall j :: 0 <= j < |script| ==> Regenerates(script[j])
    ensures forall i :: EndsAt(script, i) ==> r == Exit(script[i])
    decreases |script|
  {
    if script == [] then Unfinished
    else if Regenerates(script[0]) then
      var r := ReadOrGenerate(script[1..]);
      assert forall i :: 1 <= i < |script| ==> (EndsAt(script, i) <==> EndsAt(script[1..], i - 1));
      r
    else Exit(script[0])
  }

  /** Moves the freshly read key `src` into slot `dst` when the slot is empty;
      an occupied slot keeps its key, or the process aborts when duplicates
      are fatal. Answers the new (src, dst) pair. */
  function Merge(name: string, src: Option<Key>, dst: Option<Key>, fatalDuplicate: bool)
    : (r: Outcome<(Option<Key>, Option<Key>)>)
    ensures !r.Stalled?
    ensures r.Abort? <==> dst.Some? && fatalDuplicate
    ensures r.Abort? ==> r.reason == DuplicateKey(name)
    ensures r.Done? && dst.None? ==> r.value.0 == None && r.value.1 == src
    ensures r.Done? && dst.Some? ==> r.value == (src, dst)
    ensures r.Done? ==> multiset{r.value.0, r.value.1} == multiset{src, dst}
  {
    if dst.Some? then
      if fatalDuplicate then Abort(DuplicateKey(name)) else Done((src, dst))
    else Done((None, src))
  }

  /** A configured key file: the type generated when it is missing, and the
      environment's answers to the read loop on it. */
  datatype KeyFile = KeyFile(requested: KeyType, script: seq<Round>)

  /** The read loaded a key into a slot the build has, and that slot is
      already taken. */
  predicate Collides(f: Features, b: Bundle, o: ReadOutcome) {
    o.Loaded? && HasSlot(f, o.detected) && o.detected in b
  }

  /** Puts the key of a finished read into the slot of its detected type. */
  function Dispatch(f: Features, b: Bundle, o: ReadOutcome, fatalDuplicate: bool): (r: Outcome<Bundle>)
    requires !o.Unfinished?
    ensures !r.Stalled?
    ensures r.Abort? <==> fatalDuplicate && Collides(f, b, o)
    ensures r.Abort? ==> r.reason == DuplicateKey(SlotName(o.detected))
    ensures r.Done? ==>
              r.value == if o.Loaded? && HasSlot(f, o.detected) && o.detected !in b then b[o.detected := o.key] else b
  {
    if o.NotLoaded? || !HasSlot(f, o.detected) then Done(b)
    else
      match Merge(SlotName(o.detected), Some(o.key), Get(b, o.detected), fatalDuplicate)
      case Done((_, dst)) =>
        if dst.Some? then Done(b[o.detected := dst.value]) else Done(b)
      case Abort(e) => Abort(e)
      case Stalled => Stalled
  }

  /** Loads one key file into the bundle. At most one slot changes: the slot
      of the type detected in the file, whatever type was requested, and
      only when it was empty; an occupied slot keeps the first key loaded
      into it, or the process aborts when duplicates are fatal. */
  function LoadHostKey(f: Features, b: Bundle, file: KeyFile, fatalDuplicate: bool): (r: Outcome<Bundle>)
    ensures r.Stalled? <==> ReadOrGenerate(file.script).Unfinished?
    ensures r.Abort? <==> fatalDuplicate && Collides(f, b, ReadOrGenerate(file.script))
    ensures r.Abort? ==> r.reason == DuplicateKey(SlotName(ReadOrGenerate(file.script).detected))
    ensures r.Done? ==> forall t :: t in b ==> t in r.value && r.value[t] == b[t]
    ensures r.Done? ==> forall t :: t in r.value && t !in b ==>
              ReadOrGenerate(file.script) == Loaded(t, r.value[t]) && HasSlot(f, t)
    ensures r.Done? ==> var o := ReadOrGenerate(file.script);
              o.Loaded? && HasSlot(f, o.detected) ==> o.detected in r.value
    ensures r.Done? && WellFormed(f, b) ==> WellFormed(f, r.value)
  {
    var o := ReadOrGenerate(file.script);
    if o.Unfinished? then Stalled else Dispatch(f, b, o, fatalDuplicate)
  }

  /** Loads the files one after another into the bundle, stopping at the
      first abort or stall. */
  function LoadSeq(f: Features, b: Bundle, files: seq<KeyFile>, fatalDuplicate: bool): (r: Outcome<Bundle>)
    ensures !fatalDuplicate ==> !r.Abort?
    ensures !fatalDuplicate ==>
              (r.Stalled? <==> exists i :: 0 <= i < |files| && ReadOrGenerate(files[i].script).Unfinished?)
    ensures r.Done? && WellFormed(f, b) ==> WellFormed(f, r.value)
    decreases |files|
  {
    if files == [] then Done(b)
    else
      match LoadHostKey(f, b, files[0], fatalDuplicate)
      case Done(b') =>
        var r := LoadSeq(f, b', files[1..], fatalDuplicate);
        assert forall i :: 1 <= i < |files| ==> files[i] == files[1..][i - 1];
        r
      case Abort(e) => Abort(e)
      case Stalled => Stalled
  }

  /** The key the first file whose read detected type `t` supplies, when
      the build has a slot for `t`. */
  function FirstProvided(f: Features, files: seq<KeyFile>, t: KeyType): (r: Option<Key>)
    ensures r.Some? ==> HasSlot(f, t)
    decreases |files|
  {
    if files == [] || !HasSlot(f, t) then None
    else
      match ReadOrGenerate(files[0].script)
      case Loaded(d, k) => if d == t then Some(k) else FirstProvided(f, files[1..], t)
      case _ => FirstProvided(f, files[1..], t)
  }

  /** First loaded wins: with non-fatal duplicates, every slot ends up with
      the key it held before, or else the key of the first file whose read
      detected that slot's type. */
  lemma {:induction false} FirstLoadWins(f: Features, b: Bundle, files: seq<KeyFile>)
    requires LoadSeq(f, b, files, false).Done?
    ensures forall t :: Get(LoadSeq(f, b, files, false).value, t) ==
              if t in b then Some(b[t]) else FirstProvided(f, files, t)
    decreases |files|
  {
    if files != [] {
      var b' := LoadHostKey(f, b, files[0], false).value;
      FirstLoadWins(f, b', files[1..]);
    }
  }
}
