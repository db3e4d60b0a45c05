/** `PlenoraError` as far as its phase, its remote effect and its retry disposition go:
    a cause under transparent wrappers. */
module PlenoraErrors {
  datatype IoKind =
    | TimedOut | Interrupted | WouldBlock | ResourceBusy
    | NotFound | PermissionDenied | AlreadyExists
    | StorageFull | QuotaExceeded | FileTooLarge | OutOfMemory | UnsupportedIo | OtherKind

  datatype ErrorPhase = Validate | Connect | Probe | Prepare | Read | Write | Finalize | Commit | Rollback | Cleanup

  datatype RemoteEffect = NoEffect | RolledBack | Partial | Committed | UnknownEffect

  datatype RetryDisposition = Never | Quarantine | Safe | RequiresIdempotencyKey | RequiresRecovery | After

  datatype Cause =
    | InvalidPlan | Unsupported | Schema | DataMapping | Execution | Crs | ResourceLimit | Io(kind: IoKind)
    | Protocol | Timeout | Cancelled | Conflict | InvalidConfiguration | Internal
  {
    function Phase(): ErrorPhase {
      match this
      case InvalidPlan | Unsupported | Schema | Crs => Validate
      case InvalidConfiguration => Prepare
      case Conflict => Commit
      case _ => Write
    }

    function Retry(): RetryDisposition {
      match this
      case Io(kind) => IoRetry(kind)
      case Timeout | Cancelled => Safe
      case _ => Never
    }
  }

  /** `assi_io`: only transient causes may be retried. */
  function IoRetry(kind: IoKind): RetryDisposition {
    match kind
    case TimedOut | Interrupted | WouldBlock | ResourceBusy => Safe
    case _ => Never
  }

  datatype PlenoraError =
    | Plain(cause: Cause)
    | Tagged(phase: ErrorPhase, source: PlenoraError)
    | RowDiagnostics(source: PlenoraError)
    | WithRemoteEffect(effect: RemoteEffect, source: PlenoraError)
  {
    /** What went wrong, under every wrapper. */
    function Root(): Cause {
      match this
      case Plain(cause) => cause
      case Tagged(_, source) => source.Root()
      case RowDiagnostics(source) => source.Root()
      case WithRemoteEffect(_, source) => source.Root()
    }

    predicate HasTag() {
      match this
      case Plain(_) => false
      case Tagged(_, _) => true
      case RowDiagnostics(source) => source.HasTag()
      case WithRemoteEffect(_, source) => source.HasTag()
    }

    /** Every effect declared anywhere in the chain leaves nothing behind. */
    predicate OnlyHarmless() {
      match this
      case Plain(_) => true
      case Tagged(_, source) => source.OnlyHarmless()
      case RowDiagnostics(source) => source.OnlyHarmless()
      case WithRemoteEffect(effect, source) => effect in {NoEffect, RolledBack} && source.OnlyHarmless()
    }

    /** `remote_effect`. */
    function Effect(): RemoteEffect {
      match this
      case Plain(_) => NoEffect
      case WithRemoteEffect(effect, _) => effect
      case Tagged(_, source) => source.Effect()
      case RowDiagnostics(source) => source.Effect()
    }

    /** `phase`. */
    function Phase(): ErrorPhase {
      match this
      case Plain(cause) => cause.Phase()
      case Tagged(phase, _) => phase
      case RowDiagnostics(source) => source.Phase()
      case WithRemoteEffect(_, source) => source.Phase()
    }

    /** `retry_disposition`. */
    function Retry(): RetryDisposition {
      match this
      case Plain(cause) => cause.Retry()
      case Tagged(_, source) => source.Retry()
      case RowDiagnostics(source) => source.Retry()
      case WithRemoteEffect(effect, source) =>
        var retry := source.Retry();
        if effect.NoEffect? || effect.RolledBack? || retry.Never? || retry.Quarantine? then retry
        else if effect.Committed? && source.Phase().Cleanup? then Never
        else RequiresRecovery
    }

    /** `with_phase`: the first tag wins, under the transparent wrappers. */
    function WithPhase(phase: ErrorPhase): PlenoraError {
      match this
      case Tagged(_, _) => this
      case RowDiagnostics(source) => RowDiagnostics(source.WithPhase(phase))
      case WithRemoteEffect(effect, source) => WithRemoteEffect(effect, source.WithPhase(phase))
      case Plain(_) => Tagged(phase, this)
    }

    /** `ha_effetto_dichiarato`. */
    predicate DeclaresEffect() {
      match this
      case WithRemoteEffect(_, _) => true
      case Tagged(_, source) => source.DeclaresEffect()
      case RowDiagnostics(source) => source.DeclaresEffect()
      case Plain(_) => false
    }

    /** `with_remote_effect`: the first declared effect wins. */
    function DeclaringEffect(effect: RemoteEffect): PlenoraError {
      if effect.NoEffect? || DeclaresEffect() then this else WithRemoteEffect(effect, this)
    }

    /** `senza_effetto`. */
    function WithoutEffect(): PlenoraError {
      match this
      case WithRemoteEffect(_, source) => source.WithoutEffect()
      case Tagged(phase, source) => Tagged(phase, source.WithoutEffect())
      case RowDiagnostics(source) => RowDiagnostics(source.WithoutEffect())
      case Plain(_) => this
    }

    /** `override_remote_effect`. */
    function OverridingEffect(effect: RemoteEffect): PlenoraError {
      if effect.NoEffect? then WithoutEffect() else WithRemoteEffect(effect, WithoutEffect())
    }
  }

  /** A phase tag changes neither the effect nor whether one is declared. */
  lemma {:induction false} PhaseKeepsEffect(e: PlenoraError, phase: ErrorPhase)
    ensures e.WithPhase(phase).Effect() == e.Effect()
    ensures e.WithPhase(phase).DeclaresEffect() == e.DeclaresEffect()
    decreases e
  {
    match e
    case RowDiagnostics(source) => PhaseKeepsEffect(source, phase);
    case WithRemoteEffect(_, source) =>
    case _ =>
  }

  /** Declaring sets the effect of an error that had none and leaves every other error alone. */
  lemma {:induction false} FirstEffectWins(e: PlenoraError, effect: RemoteEffect)
    ensures e.DeclaringEffect(effect).Effect() == if e.DeclaresEffect() then e.Effect() else effect
  {
    UndeclaredIsNone(e);
  }

  lemma {:induction false} UndeclaredIsNone(e: PlenoraError)
    ensures !e.DeclaresEffect() ==> e.Effect() == NoEffect
    decreases e
  {
    match e
    case Tagged(_, source) => UndeclaredIsNone(source);
    case RowDiagnostics(source) => UndeclaredIsNone(source);
    case _ =>
  }

  /** Overriding replaces whatever the chain declared, however deep. */
  lemma {:induction false} OverrideIsFinal(e: PlenoraError, effect: RemoteEffect)
    ensures e.OverridingEffect(effect).Effect() == effect
    ensures !e.WithoutEffect().DeclaresEffect()
    decreases e
  {
    match e
    case Plain(_) =>
    case Tagged(_, source) => OverrideIsFinal(source, effect);
    case RowDiagnostics(source) => OverrideIsFinal(source, effect);
    case WithRemoteEffect(_, source) => OverrideIsFinal(source, effect);
    UndeclaredIsNone(e.WithoutEffect());
  }

  /** An error that may be retried blindly has left nothing behind. */
  lemma {:induction false} SafeLeavesNothing(e: PlenoraError)
    requires e.Retry().Safe?
    ensures e.Effect().NoEffect? || e.Effect().RolledBack?
    decreases e
  {
    match e
    case Tagged(_, source) => SafeLeavesNothing(source);
    case RowDiagnostics(source) => SafeLeavesNothing(source);
    case _ =>
  }

  /** The causes that may go away by themselves: an interruption, or I/O that timed out, was
      interrupted, would block or found the resource busy. */
  predicate Transient(cause: Cause) {
    cause in {Timeout, Cancelled, Io(TimedOut), Io(Interrupted), Io(WouldBlock), Io(ResourceBusy)}
  }

  /** Exactly the transient causes without any effect left behind may be retried blindly, whatever
      the wrappers. */
  lemma {:induction false} SafeExactly(e: PlenoraError)
    ensures e.Retry().Safe? <==> Transient(e.Root()) && e.OnlyHarmless()
    ensures e.Retry() in {Never, Safe, RequiresRecovery}
    ensures !Transient(e.Root()) ==> e.Retry().Never?
    decreases e
  {
    match e
    case Plain(_) =>
    case Tagged(_, source) => SafeExactly(source);
    case RowDiagnostics(source) => SafeExactly(source);
    case WithRemoteEffect(_, source) => SafeExactly(source);
  }

  /** A phase tag keeps the cause, and the first tag wins. */
  lemma {:induction false} FirstTagWins(e: PlenoraError, phase: ErrorPhase)
    ensures e.WithPhase(phase).Root() == e.Root()
    ensures e.WithPhase(phase).Phase() == if e.HasTag() then e.Phase() else phase
    decreases e
  {
    match e
    case RowDiagnostics(source) => FirstTagWins(source, phase);
    case WithRemoteEffect(_, source) => FirstTagWins(source, phase);
    case _ =>
  }

  /** Without a tag the cause decides the phase: a wrong plan or schema is found validating, a wrong
      configuration before any data moves, a conflict at the commit, all else while writing. */
  lemma {:induction false} UntaggedPhase(e: PlenoraError)
    requires !e.HasTag()
    ensures e.Phase() == if e.Root() in {InvalidPlan, Unsupported, Schema, Crs} then Validate
                         else if e.Root() == InvalidConfiguration then Prepare
                         else if e.Root() == Conflict then Commit
                         else Write
    decreases e
  {
    match e
    case Plain(_) =>
    case RowDiagnostics(source) => UntaggedPhase(source);
    case WithRemoteEffect(_, source) => UntaggedPhase(source);
  }

  /** Removing the effects keeps cause and phase. */
  lemma {:induction false} WithoutEffectKeeps(e: PlenoraError)
    ensures e.WithoutEffect().Root() == e.Root() && e.WithoutEffect().Phase() == e.Phase()
    ensures e.WithoutEffect().OnlyHarmless()
    decreases e
  {
    match e
    case Plain(_) =>
    case Tagged(_, source) => WithoutEffectKeeps(source);
    case RowDiagnostics(source) => WithoutEffectKeeps(source);
    case WithRemoteEffect(_, source) => WithoutEffectKeeps(source);
  }

  /** What a caller may do about a cause in a phase with an effect. */
  function RetryFor(cause: Cause, phase: ErrorPhase, effect: RemoteEffect): RetryDisposition {
    if !Transient(cause) then Never
    else if effect in {NoEffect, RolledBack} then Safe
    else if effect.Committed? && phase.Cleanup? then Never
    else RequiresRecovery
  }

  /** The error reports this cause, phase and effect, and the retry that follows from them. */
  predicate Reports(e: PlenoraError, cause: Cause, phase: ErrorPhase, effect: RemoteEffect) {
    e.Root() == cause && e.Phase() == phase && e.Effect() == effect && e.Retry() == RetryFor(cause, phase, effect)
  }

  /** The shape of every error a run builds: a cause, a phase, an effect. */
  lemma {:induction false} BuiltError(cause: Cause, phase: ErrorPhase, effect: RemoteEffect)
    ensures Reports(Plain(cause), cause, cause.Phase(), NoEffect)
    ensures Reports(Plain(cause).WithPhase(phase), cause, phase, NoEffect)
    ensures Reports(Plain(cause).WithPhase(phase).DeclaringEffect(effect), cause, phase, effect)
  {
    var tagged := Plain(cause).WithPhase(phase);
    assert tagged == Tagged(phase, Plain(cause)) && !tagged.DeclaresEffect();
    SafeExactly(Plain(cause));
    SafeExactly(tagged);
    FirstEffectWins(tagged, effect);
  }

  /** An error stripped of its effects reports its own cause and phase. */
  lemma {:induction false} OverriddenError(e: PlenoraError)
    ensures Reports(e.OverridingEffect(NoEffect), e.Root(), e.Phase(), NoEffect)
  {
    WithoutEffectKeeps(e);
    SafeExactly(e.WithoutEffect());
    OverrideIsFinal(e, NoEffect);
  }

  /** `pulizia_fallita`. */
  function PuliziaFallita(kind: IoKind): PlenoraError {
    Plain(Io(kind)).WithPhase(Cleanup).DeclaringEffect(Committed)
  }
}
