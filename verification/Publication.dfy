/** `data.run` 3: sources are read, the plan runs into private files, and the outputs are
    published one by one through an untrusted resolver. The world's answers are arbitrary;
    what a run reports is compared with what it left at the destinations. */
module Publication {
  import opened Wrappers
  import opened PlenoraErrors

  /** What a destination has received. */
  datatype Stato = Intatta | Toccata | Completa

  /** `Interruzione::verifica`. */
  datatype Interrotto = Annullato | Scaduto {
    function Causa(): Cause {
      match this case Annullato => Cancelled case Scaduto => Timeout
    }

    function Errore(): PlenoraError { Plain(Causa()) }
  }

  /** The answer to one publication; only the last kind leaves the destination unproved. */
  datatype Risposta =
    | Riuscita
    | NienteScritto(kind: IoKind)
    | Parziale(kind: IoKind)
    | Ignoto(kind: IoKind, lasciata: Stato)
  {
    /** The state the destination is left in: what the resolver claims to have proved, or anything. */
    function Lasciata(): Stato {
      match this
      case Riuscita => Completa
      case NienteScritto(_) => Intatta
      case Parziale(_) => Toccata
      case Ignoto(_, stato) => stato
    }
  }

  /** One publication: the states its destination passes through while the resolver writes, and
      the answer the resolver gives in the end. */
  datatype Scrittura = Scrittura(durante: seq<Stato>, risposta: Risposta)

  /** `RifiutoDestinazioni`. */
  datatype Rifiuto = StessoArtefatto | NonTrovata | NonAutorizzata | SovrascritturaNonAtomica | AltroIo(kind: IoKind) {
    function Errore(): PlenoraError {
      (match this
       case StessoArtefatto => Plain(InvalidConfiguration)
       case NonTrovata => Plain(Io(NotFound))
       case NonAutorizzata => Plain(Io(PermissionDenied))
       case SovrascritturaNonAtomica => Plain(Unsupported)
       case AltroIo(kind) => Plain(Io(kind))).WithPhase(Validate)
    }
  }

  /** Why `leggi_richiesta` refuses: the form of the request, tagged by `configurazione`; the plan
      or the names, whose errors carry no tag. */
  datatype RichiestaRifiutata = Forma | Piano(causa: Cause) | Nomi {
    function Errore(): PlenoraError {
      match this
      case Forma => Plain(InvalidConfiguration).WithPhase(Validate)
      case Piano(causa) => Plain(causa)
      case Nomi => Plain(InvalidConfiguration)
    }
  }

  /** Everything outside the program's control, for one run. */
  datatype World = World(
    richiesta: Option<RichiestaRifiutata>,         // the request, its plan or its names are refused
    rifiuto: Option<Rifiuto>,                      // the resolver refuses the destinations
    cartella: Option<IoKind>,                      // the private directory cannot be made
    primaDiLeggere: nat -> Option<Interrotto>,     // interruption before source i
    sorgente: nat -> Option<Cause>,                // source i cannot be read or verified
    esecuzione: Option<PlenoraError>,              // the plan fails, with any declared effect
    resoconto: nat -> Option<Cause>,               // output i has no report or cannot be hashed
    primaDiPubblicare: nat -> Option<Interrotto>,  // interruption before output i, or after the last
    apertura: nat -> Option<IoKind>,               // the private file of output i cannot be opened
    scrittura: nat -> Scrittura,                   // what the resolver does with output i
    chiusura: Option<IoKind>)                      // the private directory cannot be removed

  /** The destinations, with every state they went through. */
  class Destinazioni {
    var stati: seq<Stato>
    ghost var storia: seq<seq<Stato>>

    constructor (n: nat)
      ensures stati == Intatte(n) && storia == [stati]
    {
      stati := Intatte(n);
      storia := [Intatte(n)];
    }

    /** `RisolutoreArtefatti::pubblica` for output i. */
    method Ricevi(i: nat, scrittura: Scrittura) returns (risposta: Risposta)
      requires i < |stati|
      modifies this
      ensures risposta == scrittura.risposta
      ensures stati == old(stati)[i := risposta.Lasciata()]
      ensures storia == old(storia) + Passi(old(stati), i, scrittura.durante) + [stati]
    {
      ghost var prima := stati;
      for k := 0 to |scrittura.durante|
        invariant |stati| == |prima| && stati[i := Intatta] == prima[i := Intatta]
        invariant storia == old(storia) + Passi(prima, i, scrittura.durante)[..k]
      {
        stati := stati[i := scrittura.durante[k]];
        OnlyOneChanges(prima, stati, i);
        storia := storia + [stati];
      }
      risposta := scrittura.risposta;
      stati := stati[i := risposta.Lasciata()];
      OnlyOneChanges(prima, stati, i);
      storia := storia + [stati];
    }
  }

  /** The states of all destinations while the i-th one passes through `durante`. */
  function Passi(ora: seq<Stato>, i: nat, durante: seq<Stato>): (p: seq<seq<Stato>>)
    requires i < |ora|
    ensures |p| == |durante| && forall k :: 0 <= k < |p| ==> p[k] == ora[i := durante[k]]
  {
    seq(|durante|, k requires 0 <= k < |durante| => ora[i := durante[k]])
  }

  lemma OnlyOneChanges(prima: seq<Stato>, dopo: seq<Stato>, i: nat)
    requires i < |prima| == |dopo| && prima[i := Intatta] == dopo[i := Intatta]
    ensures dopo == prima[i := dopo[i]]
  {
    forall k | 0 <= k < |dopo| ensures dopo[k] == prima[i := dopo[i]][k] {
      if k != i { assert dopo[k] == dopo[i := Intatta][k] == prima[i := Intatta][k]; }
    }
  }

  function Intatte(n: nat): (s: seq<Stato>)
    ensures |s| == n && forall i :: 0 <= i < n ==> s[i] == Intatta
  {
    seq(n, _ => Intatta)
  }

  // ----- one publication after the other, on values

  function EffettoFinora(pubblicati: nat): RemoteEffect {
    if pubblicati == 0 then NoEffect else Partial
  }

  /** The error before output i is handed to the resolver, if any. */
  function ErrorePrima(w: World, i: nat): Option<PlenoraError> {
    match w.primaDiPubblicare(i)
    case Some(interrotto) => Some(interrotto.Errore().WithPhase(Write).DeclaringEffect(EffettoFinora(i)))
    case None =>
      match w.apertura(i)
      case Some(kind) => Some(Plain(Io(kind)).WithPhase(Write).DeclaringEffect(EffettoFinora(i)))
      case None => None
  }

  /** The error the resolver's answer turns into, if it is one. */
  function ErroreDopo(risposta: Risposta, i: nat): Option<PlenoraError> {
    match risposta
    case Riuscita => None
    case NienteScritto(kind) => Some(Plain(Io(kind)).WithPhase(Write).DeclaringEffect(EffettoFinora(i)))
    case Parziale(kind) => Some(Plain(Io(kind)).WithPhase(Write).DeclaringEffect(Partial))
    case Ignoto(kind, _) => Some(Plain(Io(kind)).WithPhase(Write).DeclaringEffect(UnknownEffect))
  }

  /** How a run of publications ends, and every state the destinations went through. */
  datatype Fine = Fine(errore: Option<PlenoraError>, storia: seq<seq<Stato>>) {
    function Ultimo(): seq<Stato>
      requires storia != []
    {
      storia[|storia| - 1]
    }
  }

  /** The states one publication goes through, the last being the one it leaves. */
  function Scritta(ora: seq<Stato>, i: nat, scrittura: Scrittura): (p: seq<seq<Stato>>)
    requires i < |ora|
    ensures p != [] && p[|p| - 1] == ora[i := scrittura.risposta.Lasciata()]
  {
    Passi(ora, i, scrittura.durante) + [ora[i := scrittura.risposta.Lasciata()]]
  }

  /** Publishing outputs i, i + 1, ... with the destinations' history so far. */
  function PubblicaDa(w: World, n: nat, i: nat, storia: seq<seq<Stato>>): (f: Fine)
    requires i <= n && storia != [] && |storia[|storia| - 1]| == n
    ensures f.storia != [] && |f.Ultimo()| == n
    decreases n - i
  {
    if i == n then
      match w.primaDiPubblicare(n)
      case Some(interrotto) => Fine(Some(interrotto.Errore().WithPhase(Finalize).DeclaringEffect(Committed)), storia)
      case None => Fine(None, storia)
    else if ErrorePrima(w, i).Some? then Fine(ErrorePrima(w, i), storia)
    else
      var dopo := storia + Scritta(storia[|storia| - 1], i, w.scrittura(i));
      var errore := ErroreDopo(w.scrittura(i).risposta, i);
      if errore.Some? then Fine(errore, dopo) else PubblicaDa(w, n, i + 1, dopo)
  }

  /** `pubblica`. */
  method Pubblica(w: World, n: nat, d: Destinazioni) returns (r: Result<(), PlenoraError>)
    requires d.stati == Intatte(n) && d.storia == [Intatte(n)]
    modifies d
    ensures var f := PubblicaDa(w, n, 0, [Intatte(n)]);
            && d.storia == f.storia && d.stati == f.Ultimo()
            && r == match f.errore case None => Ok(()) case Some(e) => Err(e)
  {
    for i := 0 to n
      invariant d.storia != [] && d.stati == d.storia[|d.storia| - 1] && |d.stati| == n
      invariant PubblicaDa(w, n, 0, [Intatte(n)]) == PubblicaDa(w, n, i, d.storia)
    {
      var effetto := EffettoFinora(i);
      var interrotto := w.primaDiPubblicare(i);
      if interrotto.Some? {
        return Err(interrotto.value.Errore().WithPhase(Write).DeclaringEffect(effetto));
      }
      var apertura := w.apertura(i);
      if apertura.Some? {
        return Err(Plain(Io(apertura.value)).WithPhase(Write).DeclaringEffect(effetto));
      }
      ghost var prima, ora := d.storia, d.stati;
      var risposta := d.Ricevi(i, w.scrittura(i));
      assert d.storia == prima + Scritta(ora, i, w.scrittura(i));
      match risposta {
        case Riuscita =>
        case NienteScritto(kind) => return Err(Plain(Io(kind)).WithPhase(Write).DeclaringEffect(effetto));
        case Parziale(kind) => return Err(Plain(Io(kind)).WithPhase(Write).DeclaringEffect(Partial));
        case Ignoto(kind, _) => return Err(Plain(Io(kind)).WithPhase(Write).DeclaringEffect(UnknownEffect));
      }
    }
    var interrotto := w.primaDiPubblicare(n);
    if interrotto.Some? {
      return Err(interrotto.value.Errore().WithPhase(Finalize).DeclaringEffect(Committed));
    }
    return Ok(());
  }

  // ----- the whole run

  /** The first source that fails, in plan order. */
  function ErroreSorgenti(w: World, m: nat, i: nat): Option<PlenoraError>
    requires i <= m
    decreases m - i
  {
    if i == m then None
    else
      match w.primaDiLeggere(i)
      case Some(interrotto) => Some(interrotto.Errore().WithPhase(Read))
      case None =>
        match w.sorgente(i)
        case Some(causa) => Some(Plain(causa).WithPhase(Read))
        case None => ErroreSorgenti(w, m, i + 1)
  }

  /** The first output without a report. */
  function ErroreResoconti(w: World, n: nat, i: nat): Option<PlenoraError>
    requires i <= n
    decreases n - i
  {
    if i == n then None
    else match w.resoconto(i) case Some(causa) => Some(Plain(causa)) case None => ErroreResoconti(w, n, i + 1)
  }

  /** Every failure before the first publication. */
  function ErrorePreparazione(w: World, m: nat, n: nat): Option<PlenoraError> {
    if w.richiesta.Some? then Some(w.richiesta.value.Errore())
    else if w.rifiuto.Some? then Some(w.rifiuto.value.Errore())
    else if w.cartella.Some? then Some(Plain(Io(w.cartella.value)))
    else if ErroreSorgenti(w, m, 0).Some? then ErroreSorgenti(w, m, 0)
    else if w.esecuzione.Some? then Some(w.esecuzione.value.OverridingEffect(NoEffect))
    else ErroreResoconti(w, n, 0)
  }

  /** `esegui_artefatti_in` with m sources and n outputs, on values. */
  function Run(w: World, m: nat, n: nat): (f: Fine)
    ensures f.storia != [] && |f.Ultimo()| == n
  {
    if ErrorePreparazione(w, m, n).Some? then Fine(ErrorePreparazione(w, m, n), [Intatte(n)])
    else
      var f := PubblicaDa(w, n, 0, [Intatte(n)]);
      if f.errore.None? && w.chiusura.Some? then Fine(Some(PuliziaFallita(w.chiusura.value)), f.storia) else f
  }

  method LeggiSorgenti(w: World, m: nat) returns (r: Result<(), PlenoraError>)
    ensures r == match ErroreSorgenti(w, m, 0) case None => Ok(()) case Some(e) => Err(e)
  {
    for i := 0 to m
      invariant ErroreSorgenti(w, m, 0) == ErroreSorgenti(w, m, i)
    {
      var interrotto := w.primaDiLeggere(i);
      if interrotto.Some? {
        return Err(interrotto.value.Errore().WithPhase(Read));
      }
      var esito := w.sorgente(i);
      if esito.Some? {
        return Err(Plain(esito.value).WithPhase(Read));
      }
    }
    return Ok(());
  }

  method RaccogliResoconti(w: World, n: nat) returns (r: Result<(), PlenoraError>)
    ensures r == match ErroreResoconti(w, n, 0) case None => Ok(()) case Some(e) => Err(e)
  {
    for i := 0 to n
      invariant ErroreResoconti(w, n, 0) == ErroreResoconti(w, n, i)
    {
      var esito := w.resoconto(i);
      if esito.Some? {
        return Err(Plain(esito.value));
      }
    }
    return Ok(());
  }

  /** `esegui_artefatti_in`. */
  method EseguiArtefattiIn(w: World, m: nat, n: nat, d: Destinazioni) returns (r: Result<(), PlenoraError>)
    requires d.stati == Intatte(n) && d.storia == [Intatte(n)]
    modifies d
    ensures var f := Run(w, m, n);
            && d.storia == f.storia && d.stati == f.Ultimo()
            && r == match f.errore case None => Ok(()) case Some(e) => Err(e)
  {
    if w.richiesta.Some? {
      return Err(w.richiesta.value.Errore());
    }
    if w.rifiuto.Some? {
      return Err(w.rifiuto.value.Errore());
    }
    if w.cartella.Some? {
      return Err(Plain(Io(w.cartella.value)));
    }
    var sorgenti := LeggiSorgenti(w, m);
    if sorgenti.Err? {
      return sorgenti;
    }
    if w.esecuzione.Some? {
      return Err(w.esecuzione.value.OverridingEffect(NoEffect));
    }
    var resoconti := RaccogliResoconti(w, n);
    if resoconti.Err? {
      return resoconti;
    }
    r := Pubblica(w, n, d);
    if r.Ok? && w.chiusura.Some? {
      return Err(PuliziaFallita(w.chiusura.value));
    }
  }

  // ----- soundness of the reported effect

  ghost predicate TutteIntatte(s: seq<Stato>) { forall i :: 0 <= i < |s| ==> s[i].Intatta? }

  ghost predicate TutteComplete(s: seq<Stato>) { forall i :: 0 <= i < |s| ==> s[i].Completa? }

  ghost predicate QualcunaToccata(s: seq<Stato>) { exists i :: 0 <= i < |s| && !s[i].Intatta? }

  /** The reported effect says what happened at the destinations. */
  ghost predicate EffettoVero(effetto: RemoteEffect, s: seq<Stato>) {
    match effetto
    case NoEffect => TutteIntatte(s)
    case Partial => QualcunaToccata(s) && !TutteComplete(s)
    case Committed => TutteComplete(s)
    case UnknownEffect => true
    case RolledBack => false
  }

  /** Complete destinations form a prefix in plan order, with at most one touched beyond it. */
  ghost predicate InOrdine(s: seq<Stato>) {
    exists k :: 0 <= k <= |s| && PrefissoCompleto(s, k)
  }

  ghost predicate PrefissoCompleto(s: seq<Stato>, k: nat)
    requires k <= |s|
  {
    (forall i :: 0 <= i < k ==> s[i].Completa?) && (forall i :: k < i < |s| ==> s[i].Intatta?)
  }

  /** The first i destinations are complete and the others untouched. */
  ghost predicate FinoA(s: seq<Stato>, i: nat) {
    && i <= |s| && (forall k :: 0 <= k < i ==> s[k].Completa?) && (forall k :: i <= k < |s| ==> s[k].Intatta?)
  }

  lemma {:induction false} PubblicaVera(w: World, n: nat, i: nat, storia: seq<seq<Stato>>)
    requires i <= n && storia != [] && |storia[|storia| - 1]| == n && FinoA(storia[|storia| - 1], i)
    requires forall k :: 0 <= k < |storia| ==> InOrdine(storia[k])
    ensures var f := PubblicaDa(w, n, i, storia);
            && (f.errore.None? ==> TutteComplete(f.Ultimo()))
            && (f.errore.Some? ==> EffettoVero(f.errore.value.Effect(), f.Ultimo()))
            && (forall k :: 0 <= k < |f.storia| ==> InOrdine(f.storia[k]))
    decreases n - i
  {
    var ora := storia[|storia| - 1];
    if i < n && ErrorePrima(w, i).None? {
      var scrittura := w.scrittura(i);
      var dopo := ora[i := scrittura.risposta.Lasciata()];
      WritingInOrder(ora, i, scrittura);
      if ErroreDopo(scrittura.risposta, i).None? {
        assert FinoA(dopo, i + 1);
        PubblicaVera(w, n, i + 1, storia + Scritta(ora, i, scrittura));
      } else {
        PartialAfterFailure(ora, dopo, i, scrittura.risposta);
      }
    } else if i < n {
      StoppedBefore(w, ora, i);
    } else if w.primaDiPubblicare(n).Some? {
      BuiltError(w.primaDiPubblicare(n).value.Causa(), Finalize, Committed);
    }
  }

  /** While output i is being written the others are complete before it and untouched after it. */
  lemma WritingInOrder(ora: seq<Stato>, i: nat, scrittura: Scrittura)
    requires i < |ora| && FinoA(ora, i)
    ensures forall k :: 0 <= k < |Scritta(ora, i, scrittura)| ==> InOrdine(Scritta(ora, i, scrittura)[k])
  {
    var p := Scritta(ora, i, scrittura);
    forall k | 0 <= k < |p| ensures InOrdine(p[k]) {
      assert PrefissoCompleto(p[k], i);
    }
  }

  /** Stopping before output i leaves what the effect so far says. */
  lemma {:induction false} StoppedBefore(w: World, ora: seq<Stato>, i: nat)
    requires i < |ora| && FinoA(ora, i) && ErrorePrima(w, i).Some?
    ensures EffettoVero(ErrorePrima(w, i).value.Effect(), ora)
  {
    if w.primaDiPubblicare(i).Some? {
      BuiltError(w.primaDiPubblicare(i).value.Causa(), Write, EffettoFinora(i));
    } else {
      BuiltError(Io(w.apertura(i).value), Write, EffettoFinora(i));
    }
    if i > 0 { assert !ora[0].Intatta? && !ora[i].Completa?; }
  }

  /** A failed publication leaves what its effect says. */
  lemma {:induction false} PartialAfterFailure(ora: seq<Stato>, dopo: seq<Stato>, i: nat, risposta: Risposta)
    requires i < |ora| && FinoA(ora, i) && dopo == ora[i := risposta.Lasciata()] && !risposta.Riuscita?
    ensures EffettoVero(ErroreDopo(risposta, i).value.Effect(), dopo)
  {
    if i > 0 { assert dopo[0].Completa?; }
    match risposta
    case NienteScritto(kind) =>
      BuiltError(Io(kind), Write, EffettoFinora(i));
      assert dopo[i] == Intatta;
    case Parziale(kind) =>
      BuiltError(Io(kind), Write, Partial);
      assert dopo[i] == Toccata;
    case Ignoto(kind, _) =>
      BuiltError(Io(kind), Write, UnknownEffect);
  }

  lemma {:induction false} PreparationLeavesNothing(w: World, m: nat, n: nat)
    requires ErrorePreparazione(w, m, n).Some?
    ensures ErrorePreparazione(w, m, n).value.Effect() == NoEffect
  {
    if w.esecuzione.Some? {
      OverrideIsFinal(w.esecuzione.value, NoEffect);
    }
    SourcesLeaveNothing(w, m, 0);
    ReportsLeaveNothing(w, n, 0);
  }

  lemma {:induction false} SourcesLeaveNothing(w: World, m: nat, i: nat)
    requires i <= m
    ensures ErroreSorgenti(w, m, i).Some? ==> ErroreSorgenti(w, m, i).value.Effect() == NoEffect
    decreases m - i
  {
    if i < m { SourcesLeaveNothing(w, m, i + 1); }
  }

  lemma {:induction false} ReportsLeaveNothing(w: World, n: nat, i: nat)
    requires i <= n
    ensures ErroreResoconti(w, n, i).Some? ==> ErroreResoconti(w, n, i).value.Effect() == NoEffect
    decreases n - i
  {
    if i < n { ReportsLeaveNothing(w, n, i + 1); }
  }

  /** For every behaviour of the resolver, of the clock and of the disk: success means every
      output is at its destination, and the effect of an error is the truth about them. */
  lemma {:induction false} EffectIsSound(w: World, m: nat, n: nat)
    ensures var f := Run(w, m, n);
            && (f.errore.None? ==> TutteComplete(f.Ultimo()))
            && (f.errore.Some? ==> EffettoVero(f.errore.value.Effect(), f.Ultimo()))
  {
    if ErrorePreparazione(w, m, n).Some? {
      PreparationLeavesNothing(w, m, n);
    } else {
      assert PrefissoCompleto(Intatte(n), 0);
      PubblicaVera(w, n, 0, [Intatte(n)]);
      if w.chiusura.Some? { BuiltError(Io(w.chiusura.value), Cleanup, Committed); }
    }
  }

  /** At every moment of every run, also while the resolver writes, the complete destinations are
      a prefix in plan order with at most one touched beyond it. */
  lemma {:induction false} AlwaysInOrder(w: World, m: nat, n: nat, k: nat)
    requires k < |Run(w, m, n).storia|
    ensures InOrdine(Run(w, m, n).storia[k])
  {
    assert PrefissoCompleto(Intatte(n), 0);
    PubblicaVera(w, n, 0, [Intatte(n)]);
  }

  /** A run whose error may be retried blindly has published nothing at all. */
  lemma {:induction false} RetryIsSafe(w: World, m: nat, n: nat)
    requires Run(w, m, n).errore.Some? && Run(w, m, n).errore.value.Retry().Safe?
    ensures TutteIntatte(Run(w, m, n).Ultimo())
  {
    EffectIsSound(w, m, n);
    SafeLeavesNothing(Run(w, m, n).errore.value);
  }

  /** With at least one output the effects other than unknown exclude one another, so the
      destinations determine the effect that can be reported. */
  lemma {:induction false} EffectDetermined(w: World, m: nat, n: nat)
    requires n > 0 && Run(w, m, n).errore.Some? && !Run(w, m, n).errore.value.Effect().UnknownEffect?
    ensures Run(w, m, n).errore.value.Effect()
         == if TutteIntatte(Run(w, m, n).Ultimo()) then NoEffect
            else if TutteComplete(Run(w, m, n).Ultimo()) then Committed else Partial
  {
    EffectIsSound(w, m, n);
    var s := Run(w, m, n).Ultimo();
    assert s[0].Intatta? || !s[0].Intatta?;
  }

  /** An error while publishing is in phase `write`, except after the last output: then everything
      is published, the phase is `finalize`, and nothing is retried automatically. */
  lemma {:induction false} PublishingPhase(w: World, n: nat, i: nat, storia: seq<seq<Stato>>)
    requires i <= n && storia != [] && |storia[|storia| - 1]| == n && PubblicaDa(w, n, i, storia).errore.Some?
    ensures var e := PubblicaDa(w, n, i, storia).errore.value;
            && e.Phase() == (if e.Effect().Committed? then Finalize else Write)
            && (e.Effect().Committed? ==> e.Retry() in {Never, RequiresRecovery})
    decreases n - i
  {
    forall cause, phase, effect
      ensures var e := Plain(cause).WithPhase(phase).DeclaringEffect(effect);
              && e.Effect() == effect && e.Phase() == phase
              && (effect.Committed? ==> e.Retry() in {Never, RequiresRecovery})
    {
      BuiltError(cause, phase, effect);
    }
    if i < n && ErrorePrima(w, i).None? && ErroreDopo(w.scrittura(i).risposta, i).None? {
      PublishingPhase(w, n, i + 1, storia + Scritta(storia[|storia| - 1], i, w.scrittura(i)));
    }
  }

  /** A committed effect means the run failed after the last output, while finishing or cleaning
      up: every output is at its destination and no retry is automatic. */
  lemma {:induction false} CommittedAfterAll(w: World, m: nat, n: nat)
    requires Run(w, m, n).errore.Some? && Run(w, m, n).errore.value.Effect().Committed?
    ensures Run(w, m, n).errore.value.Phase() in {Finalize, Cleanup}
    ensures Run(w, m, n).errore.value.Retry() in {Never, RequiresRecovery}
    ensures TutteComplete(Run(w, m, n).Ultimo())
  {
    EffectIsSound(w, m, n);
    if ErrorePreparazione(w, m, n).Some? {
      PreparationLeavesNothing(w, m, n);
    } else if PubblicaDa(w, n, 0, [Intatte(n)]).errore.Some? {
      PublishingPhase(w, n, 0, [Intatte(n)]);
    } else {
      BuiltError(Io(w.chiusura.value), Cleanup, Committed);
    }
  }

  // ----- where a run stops

  /** The request, the destinations and the private directory are accepted. */
  predicate Accepted(w: World) { w.richiesta.None? && w.rifiuto.None? && w.cartella.None? }

  /** Nothing stops the reading of the first k sources. */
  ghost predicate SourcesClear(w: World, k: nat) {
    forall i :: 0 <= i < k ==> w.primaDiLeggere(i).None? && w.sorgente(i).None?
  }

  ghost predicate ReportsClear(w: World, k: nat) {
    forall i :: 0 <= i < k ==> w.resoconto(i).None?
  }

  /** Nothing stops the run before the first publication. */
  ghost predicate Prepared(w: World, m: nat, n: nat) {
    Accepted(w) && SourcesClear(w, m) && w.esecuzione.None? && ReportsClear(w, n)
  }

  /** Output i is not interrupted, is opened and is received whole. */
  predicate Received(w: World, i: nat) {
    w.primaDiPubblicare(i).None? && w.apertura(i).None? && w.scrittura(i).risposta.Riuscita?
  }

  ghost predicate AllReceived(w: World, i: nat, k: nat) {
    forall j :: i <= j < k ==> Received(w, j)
  }

  /** The run ends with an error that reports this cause, phase and effect. */
  predicate Fails(f: Fine, cause: Cause, phase: ErrorPhase, effect: RemoteEffect) {
    f.errore.Some? && Reports(f.errore.value, cause, phase, effect)
  }

  /** The cause of an interruption, or of what would have happened without it. */
  function CauseOf(i: Option<Interrotto>, other: Cause): Cause {
    if i == Some(Annullato) then Cancelled else if i == Some(Scaduto) then Timeout else other
  }

  lemma {:induction false} SourcesStop(w: World, m: nat, i: nat)
    requires i <= m
    ensures ErroreSorgenti(w, m, i).None? <==>
            forall k :: i <= k < m ==> w.primaDiLeggere(k).None? && w.sorgente(k).None?
    decreases m - i
  {
    if i < m { SourcesStop(w, m, i + 1); }
  }

  lemma {:induction false} ReportsStop(w: World, n: nat, i: nat)
    requires i <= n
    ensures ErroreResoconti(w, n, i).None? <==> forall k :: i <= k < n ==> w.resoconto(k).None?
    decreases n - i
  {
    if i < n { ReportsStop(w, n, i + 1); }
  }

  lemma {:induction false} PreparedIs(w: World, m: nat, n: nat)
    ensures ErrorePreparazione(w, m, n).None? <==> Prepared(w, m, n)
  {
    SourcesStop(w, m, 0);
    ReportsStop(w, n, 0);
  }

  lemma {:induction false} PublishedAll(w: World, n: nat, i: nat, storia: seq<seq<Stato>>)
    requires i <= n && storia != [] && |storia[|storia| - 1]| == n
    ensures PubblicaDa(w, n, i, storia).errore.None? <==> AllReceived(w, i, n) && w.primaDiPubblicare(n).None?
    decreases n - i
  {
    if i < n && Received(w, i) {
      PublishedAll(w, n, i + 1, storia + Scritta(storia[|storia| - 1], i, w.scrittura(i)));
    }
  }

  /** The run succeeds exactly when nothing in the world refuses, interrupts or fails. */
  lemma {:induction false} SucceedsExactly(w: World, m: nat, n: nat)
    ensures Run(w, m, n).errore.None? <==>
            && w.richiesta.None? && w.rifiuto.None? && w.cartella.None? && w.esecuzione.None? && w.chiusura.None?
            && (forall i :: 0 <= i < m ==> w.primaDiLeggere(i).None? && w.sorgente(i).None?)
            && (forall i :: 0 <= i < n ==> w.resoconto(i).None?)
            && (forall i :: 0 <= i <= n ==> w.primaDiPubblicare(i).None?)
            && (forall i :: 0 <= i < n ==> w.apertura(i).None? && w.scrittura(i).risposta.Riuscita?)
  {
    PreparedIs(w, m, n);
    PublishedAll(w, n, 0, [Intatte(n)]);
    ReceivedIs(w, n);
  }

  lemma {:induction false} ReceivedIs(w: World, n: nat)
    ensures AllReceived(w, 0, n) <==>
            && (forall i :: 0 <= i < n ==> w.primaDiPubblicare(i).None?)
            && (forall i :: 0 <= i < n ==> w.apertura(i).None? && w.scrittura(i).risposta.Riuscita?)
  {
    if AllReceived(w, 0, n) {
      forall i | 0 <= i < n
        ensures w.primaDiPubblicare(i).None? && w.apertura(i).None? && w.scrittura(i).risposta.Riuscita?
      {
        assert Received(w, i);
      }
    }
  }

  /** A refused request, refused destinations or a missing directory end the run at once. */
  lemma {:induction false} RefusedAtOnce(w: World, m: nat, n: nat)
    requires !Accepted(w)
    ensures var f := Run(w, m, n);
            && f.storia == [Intatte(n)]
            && match w.richiesta
               case Some(Forma) => Fails(f, InvalidConfiguration, Validate, NoEffect)
               case Some(Piano(causa)) => Fails(f, causa, causa.Phase(), NoEffect)
               case Some(Nomi) => Fails(f, InvalidConfiguration, Prepare, NoEffect)
               case None =>
                 match w.rifiuto
                 case Some(StessoArtefatto) => Fails(f, InvalidConfiguration, Validate, NoEffect)
                 case Some(NonTrovata) => Fails(f, Io(NotFound), Validate, NoEffect)
                 case Some(NonAutorizzata) => Fails(f, Io(PermissionDenied), Validate, NoEffect)
                 case Some(SovrascritturaNonAtomica) => Fails(f, Unsupported, Validate, NoEffect)
                 case Some(AltroIo(kind)) => Fails(f, Io(kind), Validate, NoEffect)
                 case None => w.cartella.Some? && Fails(f, Io(w.cartella.value), Write, NoEffect)
  {
    hide Reports;
    forall cause ensures Reports(Plain(cause), cause, cause.Phase(), NoEffect)
                 ensures Reports(Plain(cause).WithPhase(Validate), cause, Validate, NoEffect)
    {
      BuiltError(cause, Validate, NoEffect);
    }
  }

  lemma {:induction false} FirstSource(w: World, m: nat, i: nat, k: nat)
    requires k <= i < m && (w.primaDiLeggere(i).Some? || w.sorgente(i).Some?)
    requires forall j :: k <= j < i ==> w.primaDiLeggere(j).None? && w.sorgente(j).None?
    ensures var cause := CauseOf(w.primaDiLeggere(i), if w.sorgente(i).Some? then w.sorgente(i).value else Internal);
            ErroreSorgenti(w, m, k) == Some(Plain(cause).WithPhase(Read))
    decreases i - k
  {
    if k < i {
      FirstSource(w, m, i, k + 1);
    }
  }

  /** The first source that is interrupted, unreadable or unlike its declaration ends the run. */
  lemma {:induction false} StopsAtSource(w: World, m: nat, n: nat, i: nat)
    requires Accepted(w) && SourcesClear(w, i) && i < m && (w.primaDiLeggere(i).Some? || w.sorgente(i).Some?)
    ensures var f := Run(w, m, n);
            && f.storia == [Intatte(n)]
            && Fails(f, CauseOf(w.primaDiLeggere(i), if w.sorgente(i).Some? then w.sorgente(i).value else Internal),
                     Read, NoEffect)
  {
    var cause := CauseOf(w.primaDiLeggere(i), if w.sorgente(i).Some? then w.sorgente(i).value else Internal);
    FirstSource(w, m, i, 0);
    BuiltError(cause, Read, NoEffect);
  }

  /** A plan that fails ends the run with its own cause and phase, whatever effect it declared. */
  lemma {:induction false} StopsAtExecution(w: World, m: nat, n: nat)
    requires Accepted(w) && SourcesClear(w, m) && w.esecuzione.Some?
    ensures Run(w, m, n).storia == [Intatte(n)]
    ensures Fails(Run(w, m, n), w.esecuzione.value.Root(), w.esecuzione.value.Phase(), NoEffect)
  {
    SourcesStop(w, m, 0);
    OverriddenError(w.esecuzione.value);
  }

  lemma {:induction false} FirstReport(w: World, n: nat, i: nat, k: nat)
    requires k <= i < n && w.resoconto(i).Some? && forall j :: k <= j < i ==> w.resoconto(j).None?
    ensures ErroreResoconti(w, n, k) == Some(Plain(w.resoconto(i).value))
    decreases i - k
  {
    if k < i { FirstReport(w, n, i, k + 1); }
  }

  /** So does the first output without a report. */
  lemma {:induction false} StopsAtReport(w: World, m: nat, n: nat, i: nat)
    requires Accepted(w) && SourcesClear(w, m) && w.esecuzione.None?
    requires ReportsClear(w, i) && i < n && w.resoconto(i).Some?
    ensures Run(w, m, n).storia == [Intatte(n)]
    ensures Fails(Run(w, m, n), w.resoconto(i).value, w.resoconto(i).value.Phase(), NoEffect)
  {
    SourcesStop(w, m, 0);
    FirstReport(w, n, i, 0);
    BuiltError(w.resoconto(i).value, Write, NoEffect);
  }

  /** No destination from k on has been touched at any moment. */
  ghost predicate NeverTouched(storia: seq<seq<Stato>>, k: nat) {
    forall t, j :: 0 <= t < |storia| && k <= j < |storia[t]| ==> storia[t][j].Intatta?
  }

  /** The destinations while output i is at `stato`: complete before it, untouched after it. */
  function Durante(n: nat, i: nat, stato: Stato): (s: seq<Stato>)
    ensures |s| == n
  {
    seq(n, j => if j < i then Completa else if j == i then stato else Intatta)
  }

  /** Every state the destinations go through while the first k outputs are written, each once. */
  function Momenti(w: World, n: nat, k: nat): (storia: seq<seq<Stato>>)
    ensures storia != [] && forall t :: 0 <= t < |storia| ==> |storia[t]| == n
  {
    if k == 0 then [Durante(n, 0, Intatta)]
    else
      var scrittura := w.scrittura(k - 1);
      Momenti(w, n, k - 1)
      + seq(|scrittura.durante|, t requires 0 <= t < |scrittura.durante| => Durante(n, k - 1, scrittura.durante[t]))
      + [Durante(n, k - 1, scrittura.risposta.Lasciata())]
  }

  lemma {:induction false} LastMoment(w: World, n: nat, k: nat)
    requires k <= n && AllReceived(w, 0, k)
    ensures Momenti(w, n, k)[|Momenti(w, n, k)| - 1] == Durante(n, k, Intatta)
  {
    if k > 0 { assert Received(w, k - 1); }
  }

  lemma {:induction false} LaterUntouched(w: World, n: nat, k: nat)
    ensures NeverTouched(Momenti(w, n, k), k)
  {
    if k > 0 { LaterUntouched(w, n, k - 1); }
  }

  /** Writing output i adds its moments. */
  lemma {:induction false} OneMore(w: World, n: nat, i: nat)
    requires i < n && AllReceived(w, 0, i)
    ensures var storia := Momenti(w, n, i);
            storia + Scritta(storia[|storia| - 1], i, w.scrittura(i)) == Momenti(w, n, i + 1)
  {
    LastMoment(w, n, i);
    var scrittura := w.scrittura(i);
    forall stato ensures Durante(n, i, Intatta)[i := stato] == Durante(n, i, stato) {
    }
  }

  lemma PublishOne(w: World, n: nat, i: nat, storia: seq<seq<Stato>>)
    requires i < n && storia != [] && |storia[|storia| - 1]| == n && Received(w, i)
    ensures PubblicaDa(w, n, i, storia)
         == PubblicaDa(w, n, i + 1, storia + Scritta(storia[|storia| - 1], i, w.scrittura(i)))
  {
    hide Scritta;
  }

  /** The publications before output k, one after the other. */
  lemma {:induction false} ReachesOutput(w: World, n: nat, k: nat)
    requires k <= n && AllReceived(w, 0, k)
    ensures PubblicaDa(w, n, 0, [Intatte(n)]) == PubblicaDa(w, n, k, Momenti(w, n, k))
  {
    if k == 0 {
      assert Intatte(n) == Durante(n, 0, Intatta);
    } else {
      hide PubblicaDa, Momenti, Scritta;
      ReachesOutput(w, n, k - 1);
      OneMore(w, n, k - 1);
      PublishOne(w, n, k - 1, Momenti(w, n, k - 1));
    }
  }

  /** The first output that is interrupted, not opened or not received whole ends the run: the
      outputs before it are complete, each written once, the later ones are never touched, and it is
      not touched itself unless it was handed over, in which case it is left as the answer says. */
  lemma {:induction false} StopsAtOutput(w: World, m: nat, n: nat, i: nat)
    requires Prepared(w, m, n) && AllReceived(w, 0, i) && i < n && !Received(w, i)
    ensures var f := Run(w, m, n);
            var handed := w.primaDiPubblicare(i).None? && w.apertura(i).None?;
            && f.storia == Momenti(w, n, if handed then i + 1 else i)
            && NeverTouched(f.storia, if handed then i + 1 else i)
            && (forall j :: 0 <= j < i ==> f.Ultimo()[j].Completa?)
            && (handed ==> f.Ultimo()[i] == w.scrittura(i).risposta.Lasciata())
  {
    hide ErroreDopo, Momenti, NeverTouched;
    PreparedIs(w, m, n);
    ReachesOutput(w, n, i);
    OneMore(w, n, i);
    LastMoment(w, n, i);
    LaterUntouched(w, n, i);
    LaterUntouched(w, n, i + 1);
    AnswerStops(w, i);
  }

  lemma AnswerStops(w: World, i: nat)
    ensures ErroreDopo(w.scrittura(i).risposta, i).None? <==> w.scrittura(i).risposta.Riuscita?
  {
  }

  /** The error of such a run: phase `write`, the cause of what stopped it, and the effect so far
      unless the answer proves more or leaves it open. */
  lemma {:induction false} ErrorAtOutput(w: World, m: nat, n: nat, i: nat)
    requires Prepared(w, m, n) && AllReceived(w, 0, i) && i < n && !Received(w, i)
    ensures var f := Run(w, m, n);
            var soFar := if i == 0 then NoEffect else Partial;
            if w.primaDiPubblicare(i).Some? then Fails(f, CauseOf(w.primaDiPubblicare(i), Internal), Write, soFar)
            else if w.apertura(i).Some? then Fails(f, Io(w.apertura(i).value), Write, soFar)
            else
              match w.scrittura(i).risposta
              case Riuscita => false
              case NienteScritto(kind) => Fails(f, Io(kind), Write, soFar)
              case Parziale(kind) => Fails(f, Io(kind), Write, Partial)
              case Ignoto(kind, _) => Fails(f, Io(kind), Write, UnknownEffect)
  {
    hide Reports, Momenti, Scritta;
    PreparedIs(w, m, n);
    ReachesOutput(w, n, i);
    forall cause, effect
      ensures Reports(Plain(cause).WithPhase(Write).DeclaringEffect(effect), cause, Write, effect)
    {
      BuiltError(cause, Write, effect);
    }
  }

  /** After the last output only an interruption or the cleanup can fail: everything is committed. */
  lemma {:induction false} StopsAfterLast(w: World, m: nat, n: nat)
    requires Prepared(w, m, n) && AllReceived(w, 0, n)
    ensures Run(w, m, n).storia == Momenti(w, n, n) && TutteComplete(Run(w, m, n).Ultimo())
    ensures w.primaDiPubblicare(n).Some? ==>
              Fails(Run(w, m, n), CauseOf(w.primaDiPubblicare(n), Internal), Finalize, Committed)
    ensures w.primaDiPubblicare(n).None? && w.chiusura.Some? ==>
              Fails(Run(w, m, n), Io(w.chiusura.value), Cleanup, Committed)
  {
    hide Reports;
    PreparedIs(w, m, n);
    ReachesOutput(w, n, n);
    LastMoment(w, n, n);
    BuiltError(CauseOf(w.primaDiPubblicare(n), Internal), Finalize, Committed);
    if w.chiusura.Some? { BuiltError(Io(w.chiusura.value), Cleanup, Committed); }
  }

  // ----- the names of sources and destinations

  datatype NomeErrato = Sconosciuto(occorrenza: nat) | GiaDato(occorrenza: nat) | Mancante(nome: string)

  ghost predicate Given(names: seq<string>, k: nat, n: string)
    requires k <= |names|
  {
    exists i :: 0 <= i < k && names[i] == n
  }

  ghost predicate Repeated(names: seq<string>, k: nat)
    requires k < |names|
  {
    Given(names, k, names[k])
  }

  /** `nome` is the first declared name that is not given. */
  ghost predicate FirstMissing(dichiarati: seq<string>, dati: seq<string>, nome: string) {
    exists j :: 0 <= j < |dichiarati| && dichiarati[j] == nome && nome !in dati
             && forall i :: 0 <= i < j ==> dichiarati[i] in dati
  }

  /** `verifica_nomi`: the names given are exactly the declared ones, each once; otherwise the
      first offending occurrence, or the first declared name left out. */
  method VerificaNomi(dichiarati: seq<string>, dati: seq<string>) returns (r: Result<(), NomeErrato>)
    ensures r.Ok? <==>
            && (forall k :: 0 <= k < |dati| ==> dati[k] in dichiarati && !Repeated(dati, k))
            && (forall j :: 0 <= j < |dichiarati| ==> dichiarati[j] in dati)
    ensures r.Err? && !r.error.Mancante? ==>
            var k := r.error.occorrenza - 1;
            && 0 <= k < |dati|
            && (if r.error.Sconosciuto? then dati[k] !in dichiarati else dati[k] in dichiarati && Repeated(dati, k))
            && forall i :: 0 <= i < k ==> dati[i] in dichiarati && !Repeated(dati, i)
    ensures r.Err? && r.error.Mancante? ==>
            && (forall k :: 0 <= k < |dati| ==> dati[k] in dichiarati && !Repeated(dati, k))
            && FirstMissing(dichiarati, dati, r.error.nome)
  {
    var visti: seq<string> := [];
    for k := 0 to |dati|
      invariant visti == dati[..k]
      invariant forall i :: 0 <= i < k ==> dati[i] in dichiarati && !Repeated(dati, i)
    {
      var nome := dati[k];
      if nome !in dichiarati {
        return Err(Sconosciuto(k + 1));
      }
      if nome in visti {
        var i :| 0 <= i < |visti| && visti[i] == nome;
        assert dati[i] == nome;
        return Err(GiaDato(k + 1));
      }
      assert forall i :: 0 <= i < k ==> visti[i] == dati[i] != nome;
      visti := visti + [nome];
    }
    for j := 0 to |dichiarati|
      invariant forall i :: 0 <= i < j ==> dichiarati[i] in dati
    {
      if dichiarati[j] !in visti {
        return Err(Mancante(dichiarati[j]));
      }
    }
    return Ok(());
  }
}
