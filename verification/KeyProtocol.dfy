/**
 * Master key initialisation by any number of initialisers at once: check for the key
 * file, then either load it or generate a key and publish it if the file is still absent,
 * and reload when another initialiser was faster.
 *
 * Assumed of the platform: publishing is atomic and never replaces a file, and what the
 * key protector unprotects is determined by the blob.  Every call may fail.
 */
module KeyProtocol {
  import opened Wrappers
  import opened KeyFiles

  type MasterKey = k: Bytes | |k| == 32 witness seq(32, i => 0)

  /** What each protected blob unprotects to. */
  type Protector = Bytes -> Option<MasterKey>

  type KeyResult = Result<MasterKey, CredentialStoreError>

  /** The key that a key file's content stands for. */
  function KeyIn(protector: Protector, content: Bytes): Option<MasterKey> {
    match Decode(content)
    case Some(blob) => protector(blob)
    case None => None
  }

  // ----- one initialiser -----

  datatype Phase =
    | Checking
    | Loading
    | Unprotecting(blob: Bytes)
    | Generating
    | Protecting(key: MasterKey)
    | Publishing(key: MasterKey, blob: Bytes)
    | Finished(result: KeyResult)

  /** A step in which the called operation does what it was asked. */
  predicate ProperStep(protector: Protector, file: Option<Bytes>, phase: Phase, file': Option<Bytes>, phase': Phase) {
    match phase
    case Checking => file' == file && phase' == if file.Some? then Loading else Generating
    case Loading =>
      && file' == file && file.Some?
      && phase' == (match Decode(file.value)
                    case Some(blob) => Unprotecting(blob)
                    case None => Finished(Err(InvalidProtectedKeyFile)))
    case Unprotecting(blob) =>
      && file' == file
      && phase' == (match protector(blob)
                    case Some(key) => Finished(Ok(key))
                    case None => Finished(Err(KeyUnprotectFailed)))
    case Generating => file' == file && phase'.Protecting?
    case Protecting(key) => file' == file && phase'.Publishing? && phase'.key == key && protector(phase'.blob) == Some(key)
    case Publishing(key, blob) =>
      if !IsBlob(blob) then file' == file && phase' == Finished(Err(InvalidProtectedKeyFile))
      else if file.Some? then file' == file && phase' == Loading
      else file' == Some(Encode(blob)) && phase' == Finished(Ok(key))
    case Finished(_) => false
  }

  /**
   * A step in which the called operation fails.  A publication may take effect and still
   * report an error, when only flushing the directory failed.
   */
  predicate FaultyStep(file: Option<Bytes>, phase: Phase, file': Option<Bytes>, phase': Phase) {
    && !phase.Finished? && phase'.Finished? && phase'.result.Err?
    && (file' == file
        || (phase.Publishing? && IsBlob(phase.blob) && file.None? && file' == Some(Encode(phase.blob))))
  }

  // ----- any number of them, interleaved -----

  datatype World = World(file: Option<Bytes>, phases: seq<Phase>)

  predicate NextBy(protector: Protector, w: World, w': World, p: nat, faultsAllowed: bool) {
    && |w'.phases| == |w.phases| && p < |w.phases|
    && w'.phases == w.phases[p := w'.phases[p]]
    && (ProperStep(protector, w.file, w.phases[p], w'.file, w'.phases[p])
        || (faultsAllowed && FaultyStep(w.file, w.phases[p], w'.file, w'.phases[p])))
  }

  ghost predicate Next(protector: Protector, w: World, w': World, faultsAllowed: bool) {
    exists p: nat :: NextBy(protector, w, w', p, faultsAllowed)
  }

  /** A run: all initialisers start by checking, and then they step in any order. */
  ghost predicate IsRun(protector: Protector, worlds: seq<World>, faultsAllowed: bool) {
    && worlds != []
    && (forall p :: 0 <= p < |worlds[0].phases| ==> worlds[0].phases[p] == Checking)
    && (forall i :: 0 <= i < |worlds| - 1 ==> Next(protector, worlds[i], worlds[i + 1], faultsAllowed))
  }

  predicate PhaseInvariant(protector: Protector, file: Option<Bytes>, phase: Phase) {
    match phase
    case Loading => file.Some?
    case Unprotecting(blob) => file.Some? && Decode(file.value) == Some(blob)
    case Publishing(key, blob) => protector(blob) == Some(key)
    case Finished(Ok(key)) => file.Some? && KeyIn(protector, file.value) == Some(key)
    case _ => true
  }

  predicate Invariant(protector: Protector, w: World) {
    forall p :: 0 <= p < |w.phases| ==> PhaseInvariant(protector, w.file, w.phases[p])
  }

  lemma StepKeepsInvariant(protector: Protector, w: World, w': World, p: nat, faultsAllowed: bool)
    requires Invariant(protector, w) && NextBy(protector, w, w', p, faultsAllowed)
    ensures Invariant(protector, w')
    ensures w.file.Some? ==> w'.file == w.file
  {
    forall q | 0 <= q < |w'.phases| ensures PhaseInvariant(protector, w'.file, w'.phases[q]) {
      assert PhaseInvariant(protector, w.file, w.phases[q]);
      if q == p && w.phases[p].Publishing? && IsBlob(w.phases[p].blob) {
        DecodeInvertsEncode(Encode(w.phases[p].blob), w.phases[p].blob);
      }
    }
  }

  lemma {:induction false} RunKeepsInvariant(protector: Protector, worlds: seq<World>, faultsAllowed: bool, i: nat)
    requires IsRun(protector, worlds, faultsAllowed) && i < |worlds|
    ensures Invariant(protector, worlds[i])
  {
    if i > 0 {
      RunKeepsInvariant(protector, worlds, faultsAllowed, i - 1);
      assert Next(protector, worlds[i - 1], worlds[i - 1 + 1], faultsAllowed);
      var p: nat :| NextBy(protector, worlds[i - 1], worlds[i], p, faultsAllowed);
      StepKeepsInvariant(protector, worlds[i - 1], worlds[i], p, faultsAllowed);
    }
  }

  /** Once there is a key file, its content never changes. */
  lemma {:induction false} KeyFileNeverChanges(protector: Protector, worlds: seq<World>, faultsAllowed: bool, i: nat, j: nat)
    requires IsRun(protector, worlds, faultsAllowed) && i <= j < |worlds| && worlds[i].file.Some?
    ensures worlds[j].file == worlds[i].file
  {
    if i < j {
      KeyFileNeverChanges(protector, worlds, faultsAllowed, i, j - 1);
      RunKeepsInvariant(protector, worlds, faultsAllowed, j - 1);
      assert Next(protector, worlds[j - 1], worlds[j - 1 + 1], faultsAllowed);
      var p: nat :| NextBy(protector, worlds[j - 1], worlds[j], p, faultsAllowed);
      StepKeepsInvariant(protector, worlds[j - 1], worlds[j], p, faultsAllowed);
    }
  }

  /**
   * Key agreement: whatever fails and however the steps interleave, two initialisers that
   * succeed hold the same key, which is the one the key file holds from then on.
   */
  lemma InitialisersAgree(protector: Protector, worlds: seq<World>, faultsAllowed: bool, i: nat, p: nat, j: nat, q: nat)
    requires IsRun(protector, worlds, faultsAllowed) && i <= j < |worlds|
    requires p < |worlds[i].phases| && worlds[i].phases[p].Finished? && worlds[i].phases[p].result.Ok?
    requires q < |worlds[j].phases| && worlds[j].phases[q].Finished? && worlds[j].phases[q].result.Ok?
    ensures worlds[i].phases[p].result == worlds[j].phases[q].result
    ensures worlds[j].file.Some? && KeyIn(protector, worlds[j].file.value) == Some(worlds[i].phases[p].result.value)
  {
    RunKeepsInvariant(protector, worlds, faultsAllowed, i);
    RunKeepsInvariant(protector, worlds, faultsAllowed, j);
    assert PhaseInvariant(protector, worlds[i].file, worlds[i].phases[p]);
    assert PhaseInvariant(protector, worlds[j].file, worlds[j].phases[q]);
    KeyFileNeverChanges(protector, worlds, faultsAllowed, i, j);
  }

  // ----- one initialiser among the others -----

  /** What one initialiser sees: the key file and its own phase. */
  datatype Moment = Moment(file: Option<Bytes>, phase: Phase)

  /** Between two moments it has stepped itself, or others may have published a key file. */
  predicate Follows(protector: Protector, m: Moment, m': Moment) {
    || ProperStep(protector, m.file, m.phase, m'.file, m'.phase)
    || FaultyStep(m.file, m.phase, m'.file, m'.phase)
    || (m'.phase == m.phase && (m.file.Some? ==> m'.file == m.file))
  }

  /** One initialisation, interleaved with what others do. */
  ghost predicate IsInitialisation(protector: Protector, moments: seq<Moment>) {
    && moments != [] && moments[0].phase == Checking
    && forall i {:trigger moments[i]} :: 0 < i < |moments| ==> Follows(protector, moments[i - 1], moments[i])
  }

  lemma OneMoreMoment(protector: Protector, moments: seq<Moment>, m: Moment)
    requires IsInitialisation(protector, moments) && Follows(protector, moments[|moments| - 1], m)
    ensures IsInitialisation(protector, moments + [m])
  {
    var more := moments + [m];
    forall i | 0 < i < |more| ensures Follows(protector, more[i - 1], more[i]) {
      assert i < |moments| ==> more[i] == moments[i];
    }
  }

  /** What the initialiser `p` sees of the first `n` worlds of a run. */
  function SeenBy(worlds: seq<World>, p: nat, n: nat): seq<Moment>
    requires n <= |worlds| && forall i :: 0 <= i < n ==> p < |worlds[i].phases|
  {
    if n == 0 then [] else SeenBy(worlds, p, n - 1) + [Moment(worlds[n - 1].file, worlds[n - 1].phases[p])]
  }

  lemma {:induction false} SameInitialisers(protector: Protector, worlds: seq<World>, faultsAllowed: bool, i: nat)
    requires IsRun(protector, worlds, faultsAllowed) && i < |worlds|
    ensures |worlds[i].phases| == |worlds[0].phases|
  {
    if i > 0 {
      SameInitialisers(protector, worlds, faultsAllowed, i - 1);
      assert Next(protector, worlds[i - 1], worlds[i - 1 + 1], faultsAllowed);
    }
  }

  /** What every initialiser sees of a run of all of them is an initialisation. */
  lemma {:induction false} EveryViewIsAnInitialisation(protector: Protector, worlds: seq<World>, faultsAllowed: bool, p: nat, n: nat)
    requires IsRun(protector, worlds, faultsAllowed) && 0 < n <= |worlds|
    requires forall i :: 0 <= i < |worlds| ==> p < |worlds[i].phases|
    ensures IsInitialisation(protector, SeenBy(worlds, p, n))
    ensures SeenBy(worlds, p, n)[|SeenBy(worlds, p, n)| - 1] == Moment(worlds[n - 1].file, worlds[n - 1].phases[p])
  {
    hide Encode, Decode, Invariant;
    if n > 1 {
      var w, w' := worlds[n - 2], worlds[n - 1];
      EveryViewIsAnInitialisation(protector, worlds, faultsAllowed, p, n - 1);
      RunKeepsInvariant(protector, worlds, faultsAllowed, n - 2);
      assert Next(protector, worlds[n - 2], worlds[n - 2 + 1], faultsAllowed);
      var q: nat :| NextBy(protector, w, w', q, faultsAllowed);
      StepKeepsInvariant(protector, w, w', q, faultsAllowed);
      assert q != p ==> w'.phases[p] == w.phases[p];
      OneMoreMoment(protector, SeenBy(worlds, p, n - 1), Moment(w'.file, w'.phases[p]));
    }
  }

  // ----- without faults nobody fails -----

  /** The key file, if there is one, holds a key. */
  predicate UsableFile(protector: Protector, file: Option<Bytes>) {
    file.Some? ==> KeyIn(protector, file.value).Some?
  }

  predicate NobodyFailed(w: World) {
    forall p :: 0 <= p < |w.phases| && w.phases[p].Finished? ==> w.phases[p].result.Ok?
  }

  predicate BlobsFit(w: World) {
    forall p :: 0 <= p < |w.phases| && w.phases[p].Publishing? ==> IsBlob(w.phases[p].blob)
  }

  /**
   * Losing the race is not a failure: when no operation fails, the file found at the start
   * is usable or absent, and protected blobs fit a key file, every initialiser succeeds.
   */
  lemma {:induction false} WithoutFaultsNobodyFails(protector: Protector, worlds: seq<World>, i: nat)
    requires IsRun(protector, worlds, false) && i < |worlds|
    requires UsableFile(protector, worlds[0].file)
    requires forall j :: 0 <= j < |worlds| ==> BlobsFit(worlds[j])
    ensures NobodyFailed(worlds[i]) && UsableFile(protector, worlds[i].file)
  {
    if i > 0 {
      var w, w' := worlds[i - 1], worlds[i];
      WithoutFaultsNobodyFails(protector, worlds, i - 1);
      RunKeepsInvariant(protector, worlds, false, i - 1);
      assert Next(protector, worlds[i - 1], worlds[i - 1 + 1], false);
      var p: nat :| NextBy(protector, w, w', p, false);
      assert PhaseInvariant(protector, w.file, w.phases[p]);
      assert BlobsFit(w);
      if w.phases[p].Publishing? {
        DecodeInvertsEncode(Encode(w.phases[p].blob), w.phases[p].blob);
      }
    }
  }

  // ----- everybody finishes -----

  /** How many steps an initialiser has at most before it. */
  function StepsLeft(phase: Phase): nat {
    match phase
    case Checking => 6
    case Generating => 5
    case Protecting(_) => 4
    case Publishing(_, _) => 3
    case Loading => 2
    case Unprotecting(_) => 1
    case Finished(_) => 0
  }

  function AllStepsLeft(phases: seq<Phase>): nat {
    if phases == [] then 0 else AllStepsLeft(phases[..|phases| - 1]) + StepsLeft(phases[|phases| - 1])
  }

  lemma {:induction false} OneStepLess(phases: seq<Phase>, p: nat, phase: Phase)
    requires p < |phases| && StepsLeft(phase) < StepsLeft(phases[p])
    ensures AllStepsLeft(phases[p := phase]) < AllStepsLeft(phases)
  {
    var last := |phases| - 1;
    if p < last {
      OneStepLess(phases[..last], p, phase);
      assert phases[p := phase][..last] == phases[..last][p := phase];
    } else {
      assert phases[p := phase][..last] == phases[..last];
    }
  }

  lemma {:induction false} SixStepsEach(phases: seq<Phase>)
    ensures AllStepsLeft(phases) <= 6 * |phases|
  {
    if phases != [] {
      SixStepsEach(phases[..|phases| - 1]);
    }
  }

  /** However the steps interleave and whatever fails, n initialisers take at most 6 * n steps. */
  lemma {:induction false} RunsAreShort(protector: Protector, worlds: seq<World>, faultsAllowed: bool, i: nat)
    requires IsRun(protector, worlds, faultsAllowed) && i < |worlds|
    ensures i + AllStepsLeft(worlds[i].phases) <= 6 * |worlds[0].phases|
  {
    if i > 0 {
      RunsAreShort(protector, worlds, faultsAllowed, i - 1);
      var w, w' := worlds[i - 1], worlds[i];
      assert Next(protector, worlds[i - 1], worlds[i - 1 + 1], faultsAllowed);
      var p: nat :| NextBy(protector, w, w', p, faultsAllowed);
      OneStepLess(w.phases, p, w'.phases[p]);
    } else {
      SixStepsEach(worlds[0].phases);
    }
  }

  /** Every key has a protected form. */
  ghost predicate ProtectsEveryKey(protector: Protector) {
    forall key: MasterKey {:trigger Protecting(key)} :: exists blob :: protector(blob) == Some(key)
  }

  /** An initialiser that has not finished can always step. */
  lemma NobodyIsStuck(protector: Protector, w: World, p: nat) returns (w': World)
    requires Invariant(protector, w) && ProtectsEveryKey(protector)
    requires p < |w.phases| && !w.phases[p].Finished?
    ensures NextBy(protector, w, w', p, false)
  {
    assert PhaseInvariant(protector, w.file, w.phases[p]);
    var file, phase := w.file, w.phases[p];
    match w.phases[p] {
      case Checking => phase := if w.file.Some? then Loading else Generating;
      case Loading =>
        phase := match Decode(w.file.value)
          case Some(blob) => Unprotecting(blob)
          case None => Finished(Err(InvalidProtectedKeyFile));
      case Unprotecting(blob) =>
        phase := match protector(blob)
          case Some(key) => Finished(Ok(key))
          case None => Finished(Err(KeyUnprotectFailed));
      case Generating =>
        phase := Protecting(seq(32, i => 0));
      case Protecting(key) =>
        var blob :| protector(blob) == Some(key);
        phase := Publishing(key, blob);
      case Publishing(key, blob) =>
        if !IsBlob(blob) {
          phase := Finished(Err(InvalidProtectedKeyFile));
        } else if w.file.Some? {
          phase := Loading;
        } else {
          file, phase := Some(Encode(blob)), Finished(Ok(key));
        }
    }
    w' := World(file, w.phases[p := phase]);
  }

  /**
   * Every run that goes on as long as anybody can step ends with all initialisers holding
   * the key that the key file holds, provided that no operation fails.
   */
  lemma CompleteRunsSucceed(protector: Protector, worlds: seq<World>, p: nat)
    requires IsRun(protector, worlds, false) && ProtectsEveryKey(protector)
    requires UsableFile(protector, worlds[0].file) && forall j :: 0 <= j < |worlds| ==> BlobsFit(worlds[j])
    requires var last := worlds[|worlds| - 1]; forall w' :: !Next(protector, last, w', false)
    requires p < |worlds[|worlds| - 1].phases|
    ensures var last := worlds[|worlds| - 1];
            && last.phases[p].Finished? && last.phases[p].result.Ok? && last.file.Some?
            && KeyIn(protector, last.file.value) == Some(last.phases[p].result.value)
  {
    var n := |worlds| - 1;
    RunKeepsInvariant(protector, worlds, false, n);
    WithoutFaultsNobodyFails(protector, worlds, n);
    if !worlds[n].phases[p].Finished? {
      var w' := NobodyIsStuck(protector, worlds[n], p);
      assert Next(protector, worlds[n], w', false);
    }
    assert PhaseInvariant(protector, worlds[n].file, worlds[n].phases[p]);
  }

  // ----- the store -----

  /** The place of the key file, shared by all initialisers. */
  class KeyFilePlace {
    var content: Option<Bytes>

    constructor ()
      ensures content == None
    {
      content := None;
    }

    /** Publishes a complete key file unless there is one; `fails` is an I/O error, before or after. */
    method SaveIfAbsent(blob: Bytes, failsBefore: bool, failsAfter: bool) returns (r: Result<bool, CredentialStoreError>)
      modifies this
      ensures if !IsBlob(blob) then r == Err(InvalidProtectedKeyFile) && content == old(content)
              else if failsBefore then r == Err(IoFailed) && content == old(content)
              else if old(content).Some? then r == Ok(false) && content == old(content)
              else content == Some(Encode(blob)) && r == if failsAfter then Err(IoFailed) else Ok(true)
    {
      var encoded :- WriteKeyFile(blob);
      if failsBefore {
        return Err(IoFailed);
      }
      if content.Some? {
        return Ok(false);
      }
      content := Some(encoded);
      if failsAfter {
        return Err(IoFailed);
      }
      return Ok(true);
    }

    /** What other initialisers may do meanwhile: publish a key file if there is none. */
    method OthersPublish(published: Option<Bytes>)
      modifies this
      ensures content == if old(content).None? then published else old(content)
    {
      if content.None? {
        content := published;
      }
    }
  }

  /** Everything one initialisation meets: failures, random choices, and what others publish. */
  datatype Circumstances = Circumstances(
    existenceUnknown: bool,
    loadFails: bool,
    unprotectFails: bool,
    generated: Result<MasterKey, CredentialStoreError>,
    protectedKey: Result<Bytes, CredentialStoreError>,
    publishFailsBefore: bool,
    publishFailsAfter: bool,
    beforeLoad: Option<Bytes>,
    beforePublish: Option<Bytes>,
    beforeReload: Option<Bytes>)

  class FileCredentialStore {
    const keyFile: KeyFilePlace
    const protector: Protector
    var masterKey: Option<MasterKey>
    var fingerprint: Option<string>

    constructor (keyFile: KeyFilePlace, protector: Protector)
      ensures this.keyFile == keyFile && this.protector == protector
      ensures masterKey == None && fingerprint == None
    {
      this.keyFile := keyFile;
      this.protector := protector;
      masterKey, fingerprint := None, None;
    }

    /** The protector's answer for a blob. */
    function Unprotect(blob: Bytes, fails: bool): KeyResult {
      match protector(blob)
      case Some(key) => if fails then Err(KeyUnprotectFailed) else Ok(key)
      case None => Err(KeyUnprotectFailed)
    }

    /** Loads and unprotects the key that the key file holds. */
    method LoadMasterKey(loadFails: bool, unprotectFails: bool, ghost moments: seq<Moment>)
      returns (r: KeyResult, ghost moments': seq<Moment>)
      requires keyFile.content.Some? && IsInitialisation(protector, moments)
      requires moments[|moments| - 1] == Moment(keyFile.content, Loading)
      ensures IsInitialisation(protector, moments') && moments <= moments'
      ensures moments'[|moments'| - 1] == Moment(keyFile.content, Finished(r))
      ensures r.Ok? ==> KeyIn(protector, keyFile.content.value) == Some(r.value)
      ensures !loadFails && !unprotectFails ==>
                match Decode(keyFile.content.value)
                case None => r == Err(InvalidProtectedKeyFile)
                case Some(blob) => r == if protector(blob).Some? then Ok(protector(blob).value) else Err(KeyUnprotectFailed)
      ensures r.Err? ==> r.error in {IoFailed, InvalidProtectedKeyFile, KeyUnprotectFailed}
    {
      var loaded := LoadKeyFile(keyFile.content, loadFails);
      if loaded.Err? {
        OneMoreMoment(protector, moments, Moment(keyFile.content, Finished(Err(loaded.error))));
        return Err(loaded.error), moments + [Moment(keyFile.content, Finished(Err(loaded.error)))];
      }
      ghost var unprotecting := Moment(keyFile.content, Unprotecting(loaded.value));
      OneMoreMoment(protector, moments, unprotecting);
      r := Unprotect(loaded.value, unprotectFails);
      OneMoreMoment(protector, moments + [unprotecting], Moment(keyFile.content, Finished(r)));
      moments' := moments + [unprotecting] + [Moment(keyFile.content, Finished(r))];
    }

    /**
     * Loads the master key, or creates it.  Whatever others publish meanwhile, a key that
     * is returned is the one in the key file, and a key file is never replaced.  The moments
     * tell how the call went, step by step.
     */
    method LoadOrCreateMasterKey(c: Circumstances) returns (r: KeyResult, ghost moments: seq<Moment>)
      requires c.generated.Ok? && c.protectedKey.Ok? ==> protector(c.protectedKey.value) == Some(c.generated.value)
      modifies keyFile
      ensures IsInitialisation(protector, moments) && moments[0] == Moment(old(keyFile.content), Checking)
      ensures moments[|moments| - 1] == Moment(keyFile.content, Finished(r))
      ensures old(keyFile.content).Some? ==> keyFile.content == old(keyFile.content)
      ensures r.Ok? ==> keyFile.content.Some? && KeyIn(protector, keyFile.content.value) == Some(r.value)
      ensures c.existenceUnknown ==> r == Err(IoFailed) && keyFile.content == old(keyFile.content)
      ensures old(keyFile.content).Some? && !c.existenceUnknown && !c.loadFails && !c.unprotectFails ==>
                match Decode(old(keyFile.content).value)
                case None => r == Err(InvalidProtectedKeyFile)
                case Some(blob) => r == if protector(blob).Some? then Ok(protector(blob).value) else Err(KeyUnprotectFailed)
      ensures old(keyFile.content).None? && !c.existenceUnknown ==>
                && (c.generated.Err? ==> r == Err(c.generated.error))
                && (c.generated.Ok? && c.protectedKey.Err? ==> r == Err(c.protectedKey.error))
                && (c.generated.Ok? && c.protectedKey.Ok? ==>
                      && (!IsBlob(c.protectedKey.value) ==> r == Err(InvalidProtectedKeyFile))
                      && (IsBlob(c.protectedKey.value) && c.publishFailsBefore ==> r == Err(IoFailed))
                      && (IsBlob(c.protectedKey.value) && !c.publishFailsBefore && c.beforePublish.None? ==>
                            r == if c.publishFailsAfter then Err(IoFailed) else Ok(c.generated.value)))
    {
      moments := [Moment(keyFile.content, Checking)];
      if c.existenceUnknown {
        r := Err(IoFailed);
        moments := Step(moments, Finished(r));
        return;
      }
      if keyFile.content.Some? {
        moments := Step(moments, Loading);
        keyFile.OthersPublish(c.beforeLoad);
        r, moments := LoadMasterKey(c.loadFails, c.unprotectFails, moments);
      } else {
        moments := Step(moments, Generating);
        r, moments := CreateMasterKey(c, moments);
      }
    }

    /** Notes the phase that the call has reached. */
    ghost method Step(moments: seq<Moment>, phase: Phase) returns (moments': seq<Moment>)
      requires IsInitialisation(protector, moments) && Follows(protector, moments[|moments| - 1], Moment(keyFile.content, phase))
      ensures moments' == moments + [Moment(keyFile.content, phase)] && IsInitialisation(protector, moments')
    {
      OneMoreMoment(protector, moments, Moment(keyFile.content, phase));
      moments' := moments + [Moment(keyFile.content, phase)];
    }

    /** Generates a key and publishes it; if another one was published first, loads that one. */
    method CreateMasterKey(c: Circumstances, ghost moments: seq<Moment>) returns (r: KeyResult, ghost moments': seq<Moment>)
      requires c.generated.Ok? && c.protectedKey.Ok? ==> protector(c.protectedKey.value) == Some(c.generated.value)
      requires keyFile.content.None? && IsInitialisation(protector, moments)
      requires moments[|moments| - 1] == Moment(keyFile.content, Generating)
      modifies keyFile
      ensures IsInitialisation(protector, moments') && moments <= moments'
      ensures moments'[|moments'| - 1] == Moment(keyFile.content, Finished(r))
      ensures r.Ok? ==> keyFile.content.Some? && KeyIn(protector, keyFile.content.value) == Some(r.value)
      ensures c.generated.Err? ==> r == Err(c.generated.error)
      ensures c.generated.Ok? && c.protectedKey.Err? ==> r == Err(c.protectedKey.error)
      ensures c.generated.Ok? && c.protectedKey.Ok? ==>
                && (!IsBlob(c.protectedKey.value) ==> r == Err(InvalidProtectedKeyFile))
                && (IsBlob(c.protectedKey.value) && c.publishFailsBefore ==> r == Err(IoFailed))
                && (IsBlob(c.protectedKey.value) && !c.publishFailsBefore && c.beforePublish.None? ==>
                      r == if c.publishFailsAfter then Err(IoFailed) else Ok(c.generated.value))
    {
      hide Encode, Decode, IsInitialisation;
      moments' := moments;
      if c.generated.Err? {
        r := Err(c.generated.error);
        moments' := Step(moments', Finished(r));
        return;
      }
      var masterKey := c.generated.value;
      moments' := Step(moments', Protecting(masterKey));
      if c.protectedKey.Err? {
        r := Err(c.protectedKey.error);
        moments' := Step(moments', Finished(r));
        return;
      }
      moments' := Step(moments', Publishing(masterKey, c.protectedKey.value));
      r, moments' := PublishMasterKey(masterKey, c.protectedKey.value, c, moments');
    }

    /** Publishes a protected key, or loads the one that was published first. */
    method PublishMasterKey(masterKey: MasterKey, blob: Bytes, c: Circumstances, ghost moments: seq<Moment>)
      returns (r: KeyResult, ghost moments': seq<Moment>)
      requires protector(blob) == Some(masterKey)
      requires keyFile.content.None? && IsInitialisation(protector, moments)
      requires moments[|moments| - 1] == Moment(keyFile.content, Publishing(masterKey, blob))
      modifies keyFile
      ensures IsInitialisation(protector, moments') && moments <= moments'
      ensures moments'[|moments'| - 1] == Moment(keyFile.content, Finished(r))
      ensures r.Ok? ==> keyFile.content.Some? && KeyIn(protector, keyFile.content.value) == Some(r.value)
      ensures !IsBlob(blob) ==> r == Err(InvalidProtectedKeyFile)
      ensures IsBlob(blob) && c.publishFailsBefore ==> r == Err(IoFailed)
      ensures IsBlob(blob) && !c.publishFailsBefore && c.beforePublish.None? ==>
                r == if c.publishFailsAfter then Err(IoFailed) else Ok(masterKey)
    {
      hide Encode, Decode, IsInitialisation;
      keyFile.OthersPublish(c.beforePublish);
      moments' := Step(moments, Publishing(masterKey, blob));
      var published := keyFile.SaveIfAbsent(blob, c.publishFailsBefore, c.publishFailsAfter);
      if published.Err? {
        r := Err(published.error);
        moments' := Step(moments', Finished(r));
      } else if published.value {
        DecodeInvertsEncode(Encode(blob), blob);
        r := Ok(masterKey);
        moments' := Step(moments', Finished(r));
      } else {
        moments' := Step(moments', Loading);
        keyFile.OthersPublish(c.beforeReload);
        r, moments' := LoadMasterKey(c.loadFails, c.unprotectFails, moments');
      }
    }

    /** Remembers the master key and the fingerprint together, or neither. */
    method Initialize(c: Circumstances, currentFingerprint: string) returns (r: Result<(), CredentialStoreError>)
      requires c.generated.Ok? && c.protectedKey.Ok? ==> protector(c.protectedKey.value) == Some(c.generated.value)
      modifies this, keyFile
      ensures old(keyFile.content).Some? ==> keyFile.content == old(keyFile.content)
      ensures r.Ok? ==>
                && fingerprint == Some(currentFingerprint)
                && keyFile.content.Some? && masterKey.Some?
                && KeyIn(protector, keyFile.content.value) == masterKey
      ensures r.Err? ==> fingerprint == old(fingerprint) && masterKey == old(masterKey)
    {
      ghost var moments;
      var key;
      key, moments := LoadOrCreateMasterKey(c);
      if key.Err? {
        return Err(key.error);
      }
      masterKey := Some(key.value);
      fingerprint := Some(currentFingerprint);
      return Ok(());
    }
  }
}
