/** The command-line grammar: `leggi` reads an invocation flag by flag and refuses
    everything else. */
module CommandLine {
  import opened Wrappers

  datatype Nome = Help | Version | Capabilities | Catalog | Describe | Validate | Run

  datatype FlagName = Plan | Input | Output | Overwrite | Deadline | TimeoutMs

  datatype Formato = Json | Implicito

  datatype Scadenza = Assoluta(istante: string) | Relativa(millisecondi: nat)

  datatype Uscita = Unica(percorso: string) | Nominata(nome: string, percorso: string)

  datatype Comando =
    | Aiuto | Versione | Capacita | Catalogo
    | Descrivi(ingresso: string)
    | Valida(piano: string, ingressi: seq<(string, string)>)
    | Esegui(piano: string, ingressi: seq<(string, string)>, uscite: seq<Uscita>, sovrascrivi: bool)

  datatype Invocazione = Invocazione(comando: Comando, formato: Formato, scadenza: Option<Scadenza>)

  /** Every refusal is `InvalidConfiguration`; the wording is not modelled. */
  datatype Uso = Uso

  const FORMAT := "--format"
  const U64_LIMIT := 0x1_0000_0000_0000_0000

  // ----- tokens

  function CommandToken(n: Nome): string {
    match n
    case Help => "--help" case Version => "--version" case Capabilities => "capabilities"
    case Catalog => "catalog" case Describe => "describe" case Validate => "validate" case Run => "run"
  }

  /** The lookup in `COMANDI`. */
  function CommandOf(token: string): (r: Option<Nome>)
    ensures r.Some? ==> CommandToken(r.value) == token
  {
    if token == "--help" then Some(Help) else if token == "--version" then Some(Version)
    else if token == "capabilities" then Some(Capabilities) else if token == "catalog" then Some(Catalog)
    else if token == "describe" then Some(Describe) else if token == "validate" then Some(Validate)
    else if token == "run" then Some(Run) else None
  }

  function FlagToken(f: FlagName): string {
    match f
    case Plan => "--plan" case Input => "--input" case Output => "--output"
    case Overwrite => "--overwrite" case Deadline => "--deadline" case TimeoutMs => "--timeout-ms"
  }

  function FlagOf(token: string): (r: Option<FlagName>)
    ensures r.Some? ==> FlagToken(r.value) == token
  {
    if token == "--plan" then Some(Plan) else if token == "--input" then Some(Input)
    else if token == "--output" then Some(Output) else if token == "--overwrite" then Some(Overwrite)
    else if token == "--deadline" then Some(Deadline) else if token == "--timeout-ms" then Some(TimeoutMs)
    else None
  }

  lemma TokensRead(n: Nome, f: FlagName)
    ensures CommandOf(CommandToken(n)) == Some(n) && CommandToken(n) != FORMAT
    ensures FlagOf(FlagToken(f)) == Some(f) && FlagToken(f) != FORMAT
  {
    assert "--help"[2] == 'h' && "--version"[2] == 'v' && FORMAT[2] == 'f';
    assert "--plan"[2] == 'p' && "--input"[2] == 'i' && "--output"[2] == 'o' && "--overwrite"[3] == 'v'
        && "--output"[3] == 'u' && "--deadline"[2] == 'd' && "--timeout-ms"[2] == 't';
  }

  /** `flag_ammessi`: the flags a command takes besides `--format`. */
  predicate Allowed(n: Nome, f: FlagName) {
    match n
    case Describe => f.Input? || f.Deadline? || f.TimeoutMs?
    case Validate => f.Plan? || f.Input? || f.Deadline? || f.TimeoutMs?
    case Run => true
    case _ => false
  }

  predicate Repeatable(n: Nome, f: FlagName) {
    match n case Validate => f.Input? case Run => f.Input? || f.Output? case _ => false
  }

  /** `valore` accepts the token: not empty and not beginning like a flag. */
  predicate IsValue(text: string)
    ensures IsValue(text) <==> Plain(text)
  {
    text != "" && !("--" <= text)
  }

  /** A text that can stand as a value: something that does not begin with two dashes. */
  predicate Plain(text: string) {
    text != "" && (|text| >= 2 ==> text[0] != '-' || text[1] != '-')
  }

  function ValueAt(argomenti: seq<string>, posizione: nat): Option<string> {
    if posizione + 1 < |argomenti| && IsValue(argomenti[posizione + 1]) then Some(argomenti[posizione + 1]) else None
  }

  // ----- milliseconds

  predicate Digits(s: string) { forall i :: 0 <= i < |s| ==> '0' <= s[i] <= '9' }

  function Number(s: string): nat
    requires Digits(s)
  {
    if s == "" then 0 else 10 * Number(s[..|s| - 1]) + (s[|s| - 1] as int - '0' as int)
  }

  /** Digits only, and below 2^64. */
  function ParseMillis(s: string): Option<nat> {
    if Digits(s) && s != "" && Number(s) < U64_LIMIT then Some(Number(s)) else None
  }

  function Decimal(n: nat): (s: string)
    ensures s != "" && Digits(s)
  {
    var last := ['0' + (n % 10) as char];
    if n < 10 then last else Decimal(n / 10) + last
  }

  lemma {:induction false} DecimalReads(n: nat)
    ensures Number(Decimal(n)) == n
  {
    var s := Decimal(n);
    if n >= 10 {
      DecimalReads(n / 10);
      assert s[..|s| - 1] == Decimal(n / 10);
    } else {
      assert s[..|s| - 1] == "";
    }
  }

  /** Leading zeros change nothing, so every text of digits is read as the number it denotes. */
  lemma {:induction false} LeadingZero(s: string)
    requires Digits(s)
    ensures Digits("0" + s) && Number("0" + s) == Number(s)
  {
    var z := "0" + s;
    assert forall i :: 0 < i < |z| ==> z[i] == s[i - 1];
    if s == "" {
      assert z[..0] == "";
    } else {
      assert Digits(s[..|s| - 1]);
      LeadingZero(s[..|s| - 1]);
      assert z[..|z| - 1] == "0" + s[..|s| - 1];
    }
  }

  // ----- one flag at a time

  /** `Letti`. */
  datatype Letti = Letti(formato: bool, input: seq<string>, plan: Option<string>, output: seq<string>,
                         overwrite: bool, scadenza: Option<Scadenza>, visti: seq<FlagName>)

  const NIENTE := Letti(false, [], None, [], false, None, [])

  /** A flag with its value, as it stands on the command line. */
  datatype Group = FormatGroup(value: string) | FlagGroup(flag: FlagName, value: string) | OverwriteGroup {
    function Tokens(): seq<string> {
      match this
      case FormatGroup(v) => [FORMAT, v]
      case FlagGroup(f, v) => [FlagToken(f), v]
      case OverwriteGroup => [FlagToken(Overwrite)]
    }

    predicate Lexical() {
      match this
      case FormatGroup(v) => Plain(v)
      case FlagGroup(f, v) => !f.Overwrite? && Plain(v)
      case OverwriteGroup => true
    }
  }

  function FormatRead(l: Letti, value: string): Result<Letti, Uso> {
    if l.formato || value != "json" then Err(Uso) else Ok(l.(formato := true))
  }

  /** The effect of one group on what has been read so far. */
  function Apply(n: Nome, g: Group, l: Letti): Result<Letti, Uso> {
    match g
    case FormatGroup(v) => FormatRead(l, v)
    case OverwriteGroup =>
      if !Allowed(n, Overwrite) || (Overwrite in l.visti && !Repeatable(n, Overwrite)) then Err(Uso)
      else Ok(l.(visti := l.visti + [Overwrite], overwrite := true))
    case FlagGroup(f, v) =>
      if !Allowed(n, f) || (f in l.visti && !Repeatable(n, f)) then Err(Uso)
      else
        var seen := l.(visti := l.visti + [f]);
        match f
        case Input => Ok(seen.(input := l.input + [v]))
        case Output => Ok(seen.(output := l.output + [v]))
        case Plan => Ok(seen.(plan := Some(v)))
        case Deadline => if l.scadenza.Some? then Err(Uso) else Ok(seen.(scadenza := Some(Assoluta(v))))
        case TimeoutMs =>
          if l.scadenza.Some? || ParseMillis(v).None? then Err(Uso)
          else Ok(seen.(scadenza := Some(Relativa(ParseMillis(v).value))))
        case Overwrite => Err(Uso)
  }

  /** The group that begins at a position, if the tokens there form one. */
  function GroupAt(argomenti: seq<string>, posizione: nat): (g: Option<Group>)
    requires posizione < |argomenti|
    ensures g.Some? ==> g.value.Lexical() && posizione + |g.value.Tokens()| <= |argomenti|
                        && argomenti[posizione..posizione + |g.value.Tokens()|] == g.value.Tokens()
  {
    var token := argomenti[posizione];
    var value := ValueAt(argomenti, posizione);
    if token == FORMAT then (if value.Some? then Some(FormatGroup(value.value)) else None)
    else
      match FlagOf(token)
      case None => None
      case Some(Overwrite) => Some(OverwriteGroup)
      case Some(f) => if value.Some? then Some(FlagGroup(f, value.value)) else None
  }

  /** `leggi_flag`: one group read and applied, and how many tokens it took. */
  method LeggiFlag(argomenti: seq<string>, posizione: nat, comando: Nome, letti: Letti)
    returns (r: Result<(nat, Letti), Uso>)
    requires posizione < |argomenti|
    ensures var g := GroupAt(argomenti, posizione);
            match r
            case Ok((consumati, dopo)) =>
              g.Some? && consumati == |g.value.Tokens()| && Apply(comando, g.value, letti) == Ok(dopo)
            case Err(_) => g.None? || Apply(comando, g.value, letti).Err?
  {
    var token := argomenti[posizione];
    var testo := ValueAt(argomenti, posizione);
    if token == FORMAT {
      if testo.None? {
        return Err(Uso);
      }
      var letto := FormatRead(letti, testo.value);
      if letto.Err? {
        return Err(Uso);
      }
      return Ok((2, letto.value));
    }
    var flag := FlagOf(token);
    if flag.None? || !Allowed(comando, flag.value) {
      return Err(Uso);
    }
    if flag.value in letti.visti && !Repeatable(comando, flag.value) {
      return Err(Uso);
    }
    var dopo := letti.(visti := letti.visti + [flag.value]);
    if flag.value.Overwrite? {
      return Ok((1, dopo.(overwrite := true)));
    }
    if testo.None? {
      return Err(Uso);
    }
    match flag.value {
      case Input => return Ok((2, dopo.(input := dopo.input + [testo.value])));
      case Output => return Ok((2, dopo.(output := dopo.output + [testo.value])));
      case Plan => return Ok((2, dopo.(plan := Some(testo.value))));
      case Deadline =>
        if dopo.scadenza.Some? {
          return Err(Uso);
        }
        return Ok((2, dopo.(scadenza := Some(Assoluta(testo.value)))));
      case TimeoutMs =>
        if dopo.scadenza.Some? {
          return Err(Uso);
        }
        var millisecondi := ParseMillis(testo.value);
        if millisecondi.None? {
          return Err(Uso);
        }
        return Ok((2, dopo.(scadenza := Some(Relativa(millisecondi.value)))));
    }
  }

  // ----- the whole line

  /** `nome_comando`: the first token that is neither `--format` nor its value. */
  function NomeComandoDa(argomenti: seq<string>, posizione: nat): Option<Nome>
    decreases |argomenti| - posizione
  {
    if posizione >= |argomenti| then None
    else if argomenti[posizione] == FORMAT then NomeComandoDa(argomenti, posizione + 2)
    else CommandOf(argomenti[posizione])
  }

  /** The command, the position after it and what was read before it. */
  function CommandFrom(argomenti: seq<string>, posizione: nat, l: Letti): (r: Result<(Nome, nat, Letti), Uso>)
    ensures r.Ok? ==> posizione < r.value.1 <= |argomenti|
    decreases |argomenti| - posizione
  {
    if posizione >= |argomenti| then Err(Uso)
    else if argomenti[posizione] == FORMAT then
      match ValueAt(argomenti, posizione)
      case None => Err(Uso)
      case Some(v) =>
        match FormatRead(l, v)
        case Err(_) => Err(Uso)
        case Ok(letto) => CommandFrom(argomenti, posizione + 2, letto)
    else
      match CommandOf(argomenti[posizione])
      case None => Err(Uso)
      case Some(n) => Ok((n, posizione + 1, l))
  }

  /** All the groups from a position on. */
  function FlagsFrom(argomenti: seq<string>, posizione: nat, n: Nome, l: Letti): Result<Letti, Uso>
    requires posizione <= |argomenti|
    decreases |argomenti| - posizione
  {
    if posizione == |argomenti| then Ok(l)
    else
      match GroupAt(argomenti, posizione)
      case None => Err(Uso)
      case Some(g) =>
        match Apply(n, g, l)
        case Err(_) => Err(Uso)
        case Ok(dopo) => FlagsFrom(argomenti, posizione + |g.Tokens()|, n, dopo)
  }

  function SplitOnce(text: string, k: nat): Option<(string, string)>
    requires k <= |text|
    decreases |text| - k
  {
    if k == |text| then None else if text[k] == '=' then Some((text[..k], text[k + 1..])) else SplitOnce(text, k + 1)
  }

  /** `nominato`: NAME=PATH, split at the first `=`, both sides not empty. */
  function Nominato(text: string): Option<(string, string)> {
    match SplitOnce(text, 0)
    case Some((nome, percorso)) => if nome != "" && percorso != "" then Some((nome, percorso)) else None
    case None => None
  }

  function NominatiTutti(texts: seq<string>): Option<seq<(string, string)>> {
    if texts == [] then Some([])
    else
      match (NominatiTutti(texts[..|texts| - 1]), Nominato(texts[|texts| - 1]))
      case (Some(rest), Some(last)) => Some(rest + [last])
      case _ => None
  }

  function AsUscite(named: seq<(string, string)>): (u: seq<Uscita>)
    ensures |u| == |named| && forall i :: 0 <= i < |u| ==> u[i] == Nominata(named[i].0, named[i].1)
  {
    seq(|named|, i requires 0 <= i < |named| => Nominata(named[i].0, named[i].1))
  }

  function UsciteDi(output: seq<string>): Option<seq<Uscita>> {
    if output == [] then None
    else if |output| == 1 && '=' !in output[0] then Some([Unica(output[0])])
    else match NominatiTutti(output) case None => None case Some(named) => Some(AsUscite(named))
  }

  /** `componi`. */
  function Componi(n: Nome, l: Letti): Option<Comando> {
    match n
    case Help => Some(Aiuto)
    case Version => Some(Versione)
    case Capabilities => Some(Capacita)
    case Catalog => Some(Catalogo)
    case Describe => if l.input == [] then None else Some(Descrivi(l.input[0]))
    case Validate =>
      if l.plan.None? || NominatiTutti(l.input).None? then None
      else Some(Valida(l.plan.value, NominatiTutti(l.input).value))
    case Run =>
      if UsciteDi(l.output).None? || l.plan.None? || NominatiTutti(l.input).None? then None
      else Some(Esegui(l.plan.value, NominatiTutti(l.input).value, UsciteDi(l.output).value, l.overwrite))
  }

  function Composta(n: Nome, l: Letti): Result<Invocazione, Uso> {
    match Componi(n, l)
    case None => Err(Uso)
    case Some(c) => Ok(Invocazione(c, if l.formato then Json else Implicito, l.scadenza))
  }

  /** `leggi` on values. */
  function Read(argomenti: seq<string>): Result<Invocazione, Uso> {
    match CommandFrom(argomenti, 0, NIENTE)
    case Err(_) => Err(Uso)
    case Ok((n, posizione, l)) =>
      match FlagsFrom(argomenti, posizione, n, l)
      case Err(_) => Err(Uso)
      case Ok(letti) => Composta(n, letti)
  }

  /** From i on the command stands after k pairs of tokens that each begin with `--format`. */
  predicate CommandStands(argomenti: seq<string>, i: nat, n: Nome, k: nat) {
    && i + 2 * k < |argomenti| && argomenti[i + 2 * k] == CommandToken(n)
    && forall j :: 0 <= j < k ==> argomenti[i + 2 * j] == "--format"
  }

  /** The command named is the first token at an even distance that is not `--format`, whatever stands
      in the place of the values. */
  lemma {:induction false} NomeComandoMeans(argomenti: seq<string>, i: nat, n: Nome)
    ensures NomeComandoDa(argomenti, i) == Some(n) <==> exists k: nat :: CommandStands(argomenti, i, n, k)
    decreases |argomenti| - i
  {
    hide CommandOf, CommandToken;
    TokensRead(n, Plan);
    if i < |argomenti| {
      if argomenti[i] == "--format" {
        NomeComandoMeans(argomenti, i + 2, n);
        if k: nat :| CommandStands(argomenti, i, n, k) {
          CommandLater(argomenti, i, n, k);
        }
        var next := i + 2;
        if k: nat :| CommandStands(argomenti, next, n, k) {
          CommandEarlier(argomenti, i, n, k);
        }
      } else {
        if argomenti[i] == CommandToken(n) { assert CommandStands(argomenti, i, n, 0); }
        if k: nat :| CommandStands(argomenti, i, n, k) { FormatFirst(argomenti, i, n, k); }
      }
    }
  }

  lemma FormatFirst(argomenti: seq<string>, i: nat, n: Nome, k: nat)
    requires CommandStands(argomenti, i, n, k)
    ensures i < |argomenti| && (k > 0 ==> argomenti[i] == "--format")
  {
    if k > 0 { assert argomenti[i + 2 * 0] == "--format"; }
  }

  lemma CommandLater(argomenti: seq<string>, i: nat, n: Nome, k: nat)
    requires CommandStands(argomenti, i, n, k) && argomenti[i] == "--format"
    ensures k > 0 && CommandStands(argomenti, i + 2, n, k - 1)
  {
    TokensRead(n, Plan);
    forall j | 0 <= j < k - 1 ensures argomenti[i + 2 + 2 * j] == "--format" {
      assert i + 2 + 2 * j == i + 2 * (j + 1);
    }
  }

  lemma CommandEarlier(argomenti: seq<string>, i: nat, n: Nome, k: nat)
    requires CommandStands(argomenti, i + 2, n, k) && argomenti[i] == "--format"
    ensures CommandStands(argomenti, i, n, k + 1)
  {
    forall j | 0 <= j < k + 1 ensures argomenti[i + 2 * j] == "--format" {
      if j > 0 { assert i + 2 * j == i + 2 + 2 * (j - 1); }
    }
  }

  method NomeComando(argomenti: seq<string>) returns (r: Option<Nome>)
    ensures r == NomeComandoDa(argomenti, 0)
  {
    var posizione := 0;
    while posizione < |argomenti|
      invariant NomeComandoDa(argomenti, 0) == NomeComandoDa(argomenti, posizione)
    {
      if argomenti[posizione] == FORMAT {
        posizione := posizione + 2;
      } else {
        return CommandOf(argomenti[posizione]);
      }
    }
    return None;
  }

  /** The first loop of `leggi`: formats up to the command. */
  method LeggiComando(argomenti: seq<string>) returns (r: Result<(Nome, nat, Letti), Uso>)
    ensures r == CommandFrom(argomenti, 0, NIENTE)
  {
    var letti := NIENTE;
    var posizione := 0;
    while posizione < |argomenti|
      invariant CommandFrom(argomenti, 0, NIENTE) == CommandFrom(argomenti, posizione, letti)
      decreases |argomenti| - posizione
    {
      if argomenti[posizione] != FORMAT {
        var nome := CommandOf(argomenti[posizione]);
        if nome.None? {
          return Err(Uso);
        }
        return Ok((nome.value, posizione + 1, letti));
      }
      var testo := ValueAt(argomenti, posizione);
      if testo.None? {
        return Err(Uso);
      }
      var letto := FormatRead(letti, testo.value);
      if letto.Err? {
        return Err(Uso);
      }
      letti, posizione := letto.value, posizione + 2;
    }
    return Err(Uso);
  }

  lemma FlagsEnd(argomenti: seq<string>, n: Nome, l: Letti)
    ensures FlagsFrom(argomenti, |argomenti|, n, l) == Ok(l)
  {
    hide GroupAt, Apply;
  }

  lemma FlagsStep(argomenti: seq<string>, posizione: nat, n: Nome, l: Letti)
    requires posizione < |argomenti|
    ensures FlagsFrom(argomenti, posizione, n, l)
         == match GroupAt(argomenti, posizione)
            case None => Err(Uso)
            case Some(g) =>
              match Apply(n, g, l)
              case Err(_) => Err(Uso)
              case Ok(dopo) => FlagsFrom(argomenti, posizione + |g.Tokens()|, n, dopo)
  {
    hide GroupAt, Apply;
  }

  /** `leggi`. */
  method Leggi(argomenti: seq<string>) returns (r: Result<Invocazione, Uso>)
    ensures r == Read(argomenti)
  {
    hide FlagsFrom, CommandFrom, Composta, GroupAt, Apply, FlagToken;
    var inizio := LeggiComando(argomenti);
    if inizio.Err? {
      return Err(Uso);
    }
    var (comando, posizione, letti) := inizio.value;
    while posizione < |argomenti|
      invariant posizione <= |argomenti|
      invariant FlagsFrom(argomenti, inizio.value.1, comando, inizio.value.2)
        == FlagsFrom(argomenti, posizione, comando, letti)
    {
      FlagsStep(argomenti, posizione, comando, letti);
      var passo := LeggiFlag(argomenti, posizione, comando, letti);
      if passo.Err? {
        return Err(Uso);
      }
      posizione, letti := posizione + passo.value.0, passo.value.1;
    }
    FlagsEnd(argomenti, comando, letti);
    return Composta(comando, letti);
  }

  // ----- a line is a command among groups

  function Flatten(groups: seq<Group>): seq<string> {
    if groups == [] then [] else groups[0].Tokens() + Flatten(groups[1..])
  }

  function Fold(n: Nome, groups: seq<Group>, l: Letti): Result<Letti, Uso> {
    if groups == [] then Ok(l)
    else match Apply(n, groups[0], l) case Err(_) => Err(Uso) case Ok(dopo) => Fold(n, groups[1..], dopo)
  }

  ghost predicate AllLexical(groups: seq<Group>) { forall i :: 0 <= i < |groups| ==> groups[i].Lexical() }

  ghost predicate AllFormats(groups: seq<Group>) { forall i :: 0 <= i < |groups| ==> groups[i].FormatGroup? }

  /** Formats, the command, then groups. */
  function Line(pre: seq<Group>, n: Nome, post: seq<Group>): seq<string> {
    Flatten(pre) + [CommandToken(n)] + Flatten(post)
  }

  /** From a position on, a line consists of the tokens of some groups. */
  ghost predicate GroupsStand(line: seq<string>, posizione: nat, groups: seq<Group>)
    requires posizione <= |line|
  {
    line[posizione..] == Flatten(groups)
  }

  lemma GroupIsRead(line: seq<string>, posizione: nat, g: Group)
    requires g.Lexical() && posizione + |g.Tokens()| <= |line|
    requires line[posizione..posizione + |g.Tokens()|] == g.Tokens()
    ensures GroupAt(line, posizione) == Some(g)
  {
    assert line[posizione] == g.Tokens()[0];
    match g
    case FormatGroup(v) => assert line[posizione + 1] == g.Tokens()[1];
    case FlagGroup(f, v) =>
      assert line[posizione + 1] == g.Tokens()[1];
      TokensRead(Help, f);
    case OverwriteGroup => TokensRead(Help, Overwrite);
  }

  /** The first group standing at a position, and the ones after it. */
  lemma HeadStands(line: seq<string>, posizione: nat, groups: seq<Group>)
    requires posizione <= |line| && groups != [] && GroupsStand(line, posizione, groups)
    ensures posizione + |groups[0].Tokens()| <= |line|
    ensures line[posizione..posizione + |groups[0].Tokens()|] == groups[0].Tokens()
    ensures GroupsStand(line, posizione + |groups[0].Tokens()|, groups[1..])
  {
    var k := |groups[0].Tokens()|;
    var rest := line[posizione..];
    assert rest == groups[0].Tokens() + Flatten(groups[1..]);
    assert rest[..k] == line[posizione..posizione + k] && rest[k..] == line[posizione + k..];
  }

  lemma NoneStand(line: seq<string>, posizione: nat)
    requires posizione <= |line|
    ensures GroupsStand(line, posizione, []) <==> posizione == |line|
  {
    assert Flatten([]) == [];
  }

  lemma ConsStands(line: seq<string>, posizione: nat, g: Group, rest: seq<Group>)
    requires posizione + |g.Tokens()| <= |line|
    requires line[posizione..posizione + |g.Tokens()|] == g.Tokens()
    requires GroupsStand(line, posizione + |g.Tokens()|, rest)
    ensures GroupsStand(line, posizione, [g] + rest)
  {
    var next := posizione + |g.Tokens()|;
    assert line[posizione..] == line[posizione..next] + line[next..];
    Cons(Help, g, rest, NIENTE);
  }

  /** Reading the tokens of lexical groups applies exactly those groups. */
  lemma {:induction false} GroupsAreRead(line: seq<string>, posizione: nat, groups: seq<Group>, n: Nome, l: Letti)
    requires AllLexical(groups) && posizione <= |line| && GroupsStand(line, posizione, groups)
    ensures FlagsFrom(line, posizione, n, l) == Fold(n, groups, l)
    decreases |groups|
  {
    hide GroupAt, FlagToken, GroupsStand, Flatten, FlagsFrom, Apply;
    if groups == [] {
      NoneStand(line, posizione);
      FlagsEnd(line, n, l);
    } else {
      HeadStands(line, posizione, groups);
      GroupIsRead(line, posizione, groups[0]);
      FlagsStep(line, posizione, n, l);
      if Apply(n, groups[0], l).Ok? {
        GroupsAreRead(line, posizione + |groups[0].Tokens()|, groups[1..], n, Apply(n, groups[0], l).value);
      }
    }
  }

  /** Every token of an accepted line belongs to exactly one group, in order. */
  lemma {:induction false} EveryTokenConsumed(argomenti: seq<string>, posizione: nat, n: Nome, l: Letti)
    returns (groups: seq<Group>)
    requires posizione <= |argomenti| && FlagsFrom(argomenti, posizione, n, l).Ok?
    ensures AllLexical(groups) && GroupsStand(argomenti, posizione, groups)
    ensures Fold(n, groups, l) == FlagsFrom(argomenti, posizione, n, l)
    decreases |argomenti| - posizione
  {
    hide GroupAt, FlagToken, GroupsStand, Flatten, FlagsFrom, Apply;
    NoneStand(argomenti, posizione);
    if posizione == |argomenti| {
      FlagsEnd(argomenti, n, l);
      return [];
    }
    FlagsStep(argomenti, posizione, n, l);
    var g := GroupAt(argomenti, posizione).value;
    var rest := EveryTokenConsumed(argomenti, posizione + |g.Tokens()|, n, Apply(n, g, l).value);
    groups := [g] + rest;
    Cons(n, g, rest, l);
    ConsStands(argomenti, posizione, g, rest);
  }

  lemma Cons(n: Nome, g: Group, rest: seq<Group>, l: Letti)
    ensures Flatten([g] + rest) == g.Tokens() + Flatten(rest)
    ensures Apply(n, g, l).Ok? ==> Fold(n, [g] + rest, l) == Fold(n, rest, Apply(n, g, l).value)
  {
    assert ([g] + rest)[1..] == rest;
  }

  lemma {:induction false} CommandConsumed(argomenti: seq<string>, posizione: nat, l: Letti) returns (pre: seq<Group>)
    requires posizione <= |argomenti| && CommandFrom(argomenti, posizione, l).Ok?
    ensures var (n, next, _) := CommandFrom(argomenti, posizione, l).value;
            && AllLexical(pre) && AllFormats(pre)
            && argomenti[posizione..next] == Flatten(pre) + [CommandToken(n)]
            && Fold(n, pre, l) == Ok(CommandFrom(argomenti, posizione, l).value.2)
            && NomeComandoDa(argomenti, posizione) == Some(n)
    decreases |argomenti| - posizione
  {
    var (n, next, after) := CommandFrom(argomenti, posizione, l).value;
    if argomenti[posizione] == FORMAT {
      var v := argomenti[posizione + 1];
      var rest := CommandConsumed(argomenti, posizione + 2, FormatRead(l, v).value);
      pre := [FormatGroup(v)] + rest;
      assert pre[1..] == rest;
      assert argomenti[posizione..next] == [FORMAT, v] + argomenti[posizione + 2..next];
    } else {
      pre := [];
      assert argomenti[posizione..next] == [argomenti[posizione]];
    }
  }

  lemma {:induction false} FormatsAreRead(before: seq<string>, pre: seq<Group>, n: Nome, after: seq<string>, l: Letti)
    requires AllLexical(pre) && AllFormats(pre)
    ensures CommandFrom(before + Flatten(pre) + [CommandToken(n)] + after, |before|, l)
         == match Fold(n, pre, l)
            case Err(_) => Err(Uso)
            case Ok(letto) => Ok((n, |before| + |Flatten(pre)| + 1, letto))
    decreases |pre|
  {
    hide CommandToken, CommandOf, FlagToken, Plain;
    var line := before + Flatten(pre) + [CommandToken(n)] + after;
    TokensRead(n, Plan);
    if pre == [] {
      assert line[|before|] == CommandToken(n);
    } else {
      var v := pre[0].value;
      assert Flatten(pre) == [FORMAT, v] + Flatten(pre[1..]);
      assert line[|before|] == FORMAT && line[|before| + 1] == v;
      if FormatRead(l, v).Ok? {
        FormatsAreRead(before + [FORMAT, v], pre[1..], n, after, FormatRead(l, v).value);
        assert before + [FORMAT, v] + Flatten(pre[1..]) + [CommandToken(n)] + after == line;
      }
    }
  }

  lemma {:induction false} FoldAppend(n: Nome, a: seq<Group>, b: seq<Group>, l: Letti)
    ensures Fold(n, a + b, l) == match Fold(n, a, l) case Err(_) => Err(Uso) case Ok(dopo) => Fold(n, b, dopo)
    decreases |a|
  {
    if a == [] {
      assert a + b == b;
    } else {
      assert (a + b)[1..] == a[1..] + b;
      if Apply(n, a[0], l).Ok? {
        FoldAppend(n, a[1..], b, Apply(n, a[0], l).value);
      }
    }
  }

  function Outcome(n: Nome, groups: seq<Group>): Result<Invocazione, Uso> {
    match Fold(n, groups, NIENTE) case Err(_) => Err(Uso) case Ok(letti) => Composta(n, letti)
  }

  lemma LineParts(pre: seq<Group>, n: Nome, post: seq<Group>)
    ensures Line(pre, n, post) == [] + Flatten(pre) + [CommandToken(n)] + Flatten(post)
    ensures |Flatten(pre)| + 1 <= |Line(pre, n, post)|
    ensures GroupsStand(Line(pre, n, post), |Flatten(pre)| + 1, post)
  {
    hide Flatten, CommandToken;
    assert [] + Flatten(pre) == Flatten(pre);
  }

  /** Reading a line is folding all its groups, wherever the command stands among the formats. */
  lemma LineIsRead(pre: seq<Group>, n: Nome, post: seq<Group>)
    requires AllLexical(pre) && AllFormats(pre) && AllLexical(post)
    ensures Read(Line(pre, n, post)) == Outcome(n, pre + post)
  {
    hide CommandToken, FlagsFrom, CommandFrom, Composta, GroupsStand, Line, Flatten, Fold, AllLexical, AllFormats;
    LineParts(pre, n, post);
    FormatsAreRead([], pre, n, Flatten(post), NIENTE);
    FoldAppend(n, pre, post, NIENTE);
    if Fold(n, pre, NIENTE).Ok? {
      GroupsAreRead(Line(pre, n, post), |Flatten(pre)| + 1, post, n, Fold(n, pre, NIENTE).value);
    }
  }

  lemma PartsMakeLine(line: seq<string>, posizione: nat, pre: seq<Group>, n: Nome, post: seq<Group>)
    requires posizione <= |line| && GroupsStand(line, posizione, post)
    requires line[0..posizione] == Flatten(pre) + [CommandToken(n)]
    ensures line == Line(pre, n, post)
  {
    hide CommandToken;
    assert line == line[0..posizione] + line[posizione..];
  }

  /** An accepted line is a command among lexical groups, and its name is what `nome_comando` says. */
  lemma AcceptedIsLine(argomenti: seq<string>) returns (pre: seq<Group>, n: Nome, post: seq<Group>)
    requires Read(argomenti).Ok?
    ensures AllLexical(pre) && AllFormats(pre) && AllLexical(post) && argomenti == Line(pre, n, post)
    ensures Read(argomenti) == Outcome(n, pre + post)
    ensures NomeComandoDa(argomenti, 0) == Some(n)
  {
    hide GroupAt, CommandToken, FlagToken, Composta;
    var (m, posizione, l) := CommandFrom(argomenti, 0, NIENTE).value;
    n := m;
    pre := CommandConsumed(argomenti, 0, NIENTE);
    post := EveryTokenConsumed(argomenti, posizione, n, l);
    PartsMakeLine(argomenti, posizione, pre, n, post);
    LineIsRead(pre, n, post);
  }

  // ----- what a fold of groups means

  /** The values each flag was given, in order, and how often `--overwrite` stands on the line. */
  datatype Tally = Tally(plan: seq<string>, input: seq<string>, output: seq<string>, overwrites: nat,
                         deadline: seq<string>, timeout: seq<string>, formats: seq<string>)
  {
    function Add(g: Group): Tally {
      match g
      case FormatGroup(v) => this.(formats := formats + [v])
      case OverwriteGroup => this.(overwrites := overwrites + 1)
      case FlagGroup(Plan, v) => this.(plan := plan + [v])
      case FlagGroup(Input, v) => this.(input := input + [v])
      case FlagGroup(Output, v) => this.(output := output + [v])
      case FlagGroup(Deadline, v) => this.(deadline := deadline + [v])
      case FlagGroup(TimeoutMs, v) => this.(timeout := timeout + [v])
      case FlagGroup(Overwrite, v) => this
    }

    function Times(f: FlagName): nat {
      match f
      case Plan => |plan| case Input => |input| case Output => |output|
      case Overwrite => overwrites case Deadline => |deadline| case TimeoutMs => |timeout|
    }

    function Termine(): Option<Scadenza> {
      if deadline != [] then Some(Assoluta(deadline[0]))
      else if timeout != [] && ParseMillis(timeout[0]).Some? then Some(Relativa(ParseMillis(timeout[0]).value))
      else None
    }

    /** What the grammar asks of the groups of a command, whatever their order. */
    ghost predicate Acceptable(n: Nome) {
      && (forall f :: Times(f) > 0 ==> Allowed(n, f))
      && (forall f :: Times(f) > 1 ==> Repeatable(n, f))
      && (formats == [] || formats == ["json"])
      && |deadline| + |timeout| <= 1
      && (timeout != [] ==> ParseMillis(timeout[0]).Some?)
    }

    /** The values read, up to the order of the flags seen. */
    ghost predicate ReadsAs(l: Letti) {
      && (l.formato <==> formats != [])
      && l.input == input && l.output == output && (l.overwrite <==> overwrites > 0)
      && l.plan == (if plan == [] then None else Some(plan[|plan| - 1]))
      && l.scadenza == Termine()
      && (forall f :: f in l.visti <==> Times(f) > 0)
    }
  }

  const NESSUNO := Tally([], [], [], 0, [], [], [])

  function TallyOf(groups: seq<Group>): Tally {
    if groups == [] then NESSUNO else TallyOf(groups[..|groups| - 1]).Add(groups[|groups| - 1])
  }

  /** One more group: accepted exactly when the longer line is acceptable, and read as it. */
  lemma ApplyMeans(n: Nome, t: Tally, g: Group, l: Letti)
    requires t.Acceptable(n) && t.ReadsAs(l) && g.Lexical()
    ensures Apply(n, g, l).Ok? <==> t.Add(g).Acceptable(n)
    ensures Apply(n, g, l).Ok? ==> t.Add(g).ReadsAs(Apply(n, g, l).value)
  {
    match g
    case FormatGroup(v) => FormatMeans(n, t, v, l);
    case OverwriteGroup =>
      var all := t.Add(g);
      assert forall f :: all.Times(f) == t.Times(f) + (if f == Overwrite then 1 else 0);
    case FlagGroup(Input, v) => InputMeans(n, t, v, l);
    case FlagGroup(Output, v) => OutputMeans(n, t, v, l);
    case FlagGroup(Plan, v) => PlanMeans(n, t, v, l);
    case FlagGroup(Deadline, v) => DeadlineMeans(n, t, v, l);
    case FlagGroup(TimeoutMs, v) => TimeoutMeans(n, t, v, l);
    case FlagGroup(Overwrite, v) =>
  }

  lemma FormatMeans(n: Nome, t: Tally, v: string, l: Letti)
    requires t.Acceptable(n) && t.ReadsAs(l)
    ensures FormatRead(l, v).Ok? <==> t.Add(FormatGroup(v)).Acceptable(n)
    ensures FormatRead(l, v).Ok? ==> t.Add(FormatGroup(v)).ReadsAs(FormatRead(l, v).value)
  {
    hide Allowed, Repeatable, ParseMillis;
    var all := t.Add(FormatGroup(v));
    assert forall f :: all.Times(f) == t.Times(f);
    assert all.formats[|t.formats|] == v;
  }

  /** The flags seen say which flags may still come. */
  lemma SeenMeans(n: Nome, t: Tally, g: Group, f: FlagName, l: Letti)
    requires t.Acceptable(n) && t.ReadsAs(l) && g == (if f == Overwrite then OverwriteGroup else g)
    requires forall h :: t.Add(g).Times(h) == t.Times(h) + (if h == f then 1 else 0)
    ensures Allowed(n, f) && (f in l.visti ==> Repeatable(n, f))
       <==> (forall h :: t.Add(g).Times(h) > 0 ==> Allowed(n, h))
            && (forall h :: t.Add(g).Times(h) > 1 ==> Repeatable(n, h))
    ensures forall h :: h in l.visti + [f] <==> t.Add(g).Times(h) > 0
  {
    assert t.Add(g).Times(f) > 0;
  }

  lemma InputMeans(n: Nome, t: Tally, v: string, l: Letti)
    requires t.Acceptable(n) && t.ReadsAs(l)
    ensures Apply(n, FlagGroup(Input, v), l).Ok? <==> t.Add(FlagGroup(Input, v)).Acceptable(n)
    ensures Apply(n, FlagGroup(Input, v), l).Ok? ==>
            t.Add(FlagGroup(Input, v)).ReadsAs(Apply(n, FlagGroup(Input, v), l).value)
  {
    SeenMeans(n, t, FlagGroup(Input, v), Input, l);
  }

  lemma OutputMeans(n: Nome, t: Tally, v: string, l: Letti)
    requires t.Acceptable(n) && t.ReadsAs(l)
    ensures Apply(n, FlagGroup(Output, v), l).Ok? <==> t.Add(FlagGroup(Output, v)).Acceptable(n)
    ensures Apply(n, FlagGroup(Output, v), l).Ok? ==>
            t.Add(FlagGroup(Output, v)).ReadsAs(Apply(n, FlagGroup(Output, v), l).value)
  {
    SeenMeans(n, t, FlagGroup(Output, v), Output, l);
  }

  lemma PlanMeans(n: Nome, t: Tally, v: string, l: Letti)
    requires t.Acceptable(n) && t.ReadsAs(l)
    ensures Apply(n, FlagGroup(Plan, v), l).Ok? <==> t.Add(FlagGroup(Plan, v)).Acceptable(n)
    ensures Apply(n, FlagGroup(Plan, v), l).Ok? ==>
            t.Add(FlagGroup(Plan, v)).ReadsAs(Apply(n, FlagGroup(Plan, v), l).value)
  {
    SeenMeans(n, t, FlagGroup(Plan, v), Plan, l);
  }

  lemma DeadlineMeans(n: Nome, t: Tally, v: string, l: Letti)
    requires t.Acceptable(n) && t.ReadsAs(l)
    ensures Apply(n, FlagGroup(Deadline, v), l).Ok? <==> t.Add(FlagGroup(Deadline, v)).Acceptable(n)
    ensures Apply(n, FlagGroup(Deadline, v), l).Ok? ==>
            t.Add(FlagGroup(Deadline, v)).ReadsAs(Apply(n, FlagGroup(Deadline, v), l).value)
  {
    SeenMeans(n, t, FlagGroup(Deadline, v), Deadline, l);
  }

  lemma TimeoutMeans(n: Nome, t: Tally, v: string, l: Letti)
    requires t.Acceptable(n) && t.ReadsAs(l)
    ensures Apply(n, FlagGroup(TimeoutMs, v), l).Ok? <==> t.Add(FlagGroup(TimeoutMs, v)).Acceptable(n)
    ensures Apply(n, FlagGroup(TimeoutMs, v), l).Ok? ==>
            t.Add(FlagGroup(TimeoutMs, v)).ReadsAs(Apply(n, FlagGroup(TimeoutMs, v), l).value)
  {
    SeenMeans(n, t, FlagGroup(TimeoutMs, v), TimeoutMs, l);
  }

  lemma TimesGrow(t: Tally, g: Group, f: FlagName)
    ensures t.Add(g).Times(f) >= t.Times(f)
  {
  }

  /** A shorter line of an acceptable one is acceptable. */
  lemma PrefixAcceptable(n: Nome, t: Tally, g: Group)
    requires t.Add(g).Acceptable(n)
    ensures t.Acceptable(n)
  {
    hide Allowed, Repeatable, ParseMillis;
    var all := t.Add(g);
    forall f ensures all.Times(f) >= t.Times(f) { TimesGrow(t, g, f); }
    if t.formats != [] {
      assert all.formats[0] == t.formats[0];
      assert |all.formats| == 1;
    }
    if t.timeout != [] { assert all.timeout[0] == t.timeout[0]; }
  }

  lemma {:induction false} FoldMeans(n: Nome, groups: seq<Group>)
    requires AllLexical(groups)
    ensures Fold(n, groups, NIENTE).Ok? <==> TallyOf(groups).Acceptable(n)
    ensures Fold(n, groups, NIENTE).Ok? ==> TallyOf(groups).ReadsAs(Fold(n, groups, NIENTE).value)
    decreases |groups|
  {
    if groups == [] {
      assert forall f :: NESSUNO.Times(f) == 0;
    } else {
      var init, g := groups[..|groups| - 1], groups[|groups| - 1];
      assert groups == init + [g];
      FoldMeans(n, init);
      FoldAppend(n, init, [g], NIENTE);
      if Fold(n, init, NIENTE).Ok? {
        ApplyMeans(n, TallyOf(init), g, Fold(n, init, NIENTE).value);
        FoldOne(n, g, Fold(n, init, NIENTE).value);
      } else if TallyOf(groups).Acceptable(n) {
        PrefixAcceptable(n, TallyOf(init), g);
      }
    }
  }

  lemma FoldOne(n: Nome, g: Group, l: Letti)
    ensures Fold(n, [g], l) == match Apply(n, g, l) case Err(_) => Err(Uso) case Ok(dopo) => Ok(dopo)
  {
    assert [g][1..] == [];
  }

  // ----- the order of the groups

  /** The same groups in another order, repeated inputs and outputs keeping theirs. */
  ghost predicate SamePieces(a: seq<Group>, b: seq<Group>) {
    multiset(a) == multiset(b) && TallyOf(a).input == TallyOf(b).input && TallyOf(a).output == TallyOf(b).output
  }

  /** How often a value stands in a list, and a group on a line. */
  ghost function Many(s: seq<string>, v: string): nat { multiset(s)[v] }

  ghost function Often(groups: seq<Group>, g: Group): nat { multiset(groups)[g] }

  ghost predicate Counts(t: Tally, groups: seq<Group>, v: string) {
    && Many(t.plan, v) == Often(groups, FlagGroup(Plan, v))
    && Many(t.deadline, v) == Often(groups, FlagGroup(Deadline, v))
    && Many(t.timeout, v) == Often(groups, FlagGroup(TimeoutMs, v))
    && Many(t.formats, v) == Often(groups, FormatGroup(v))
    && t.overwrites == Often(groups, OverwriteGroup)
  }

  lemma CountsStep(t: Tally, groups: seq<Group>, g: Group, v: string)
    requires Counts(t, groups, v)
    ensures Counts(t.Add(g), groups + [g], v)
  {
    hide Many, Often;
    OneMore(groups, g, FlagGroup(Plan, v));
    OneMore(groups, g, FlagGroup(Deadline, v));
    OneMore(groups, g, FlagGroup(TimeoutMs, v));
    OneMore(groups, g, FormatGroup(v));
    OneMore(groups, g, OverwriteGroup);
    match g
    case FormatGroup(w) => OneMoreValue(t.formats, w, v);
    case OverwriteGroup =>
    case FlagGroup(Plan, w) => OneMoreValue(t.plan, w, v);
    case FlagGroup(Deadline, w) => OneMoreValue(t.deadline, w, v);
    case FlagGroup(TimeoutMs, w) => OneMoreValue(t.timeout, w, v);
    case FlagGroup(_, w) =>
  }

  lemma OneMore(groups: seq<Group>, g: Group, h: Group)
    ensures Often(groups + [g], h) == Often(groups, h) + (if h == g then 1 else 0)
  {
    assert multiset(groups + [g]) == multiset(groups) + multiset{g};
  }

  lemma OneMoreValue(s: seq<string>, w: string, v: string)
    ensures Many(s + [w], v) == Many(s, v) + (if w == v then 1 else 0)
  {
    assert multiset(s + [w]) == multiset(s) + multiset{w};
  }

  lemma NothingCounted(v: string)
    ensures Counts(NESSUNO, [], v)
  {
  }

  lemma {:induction false} TallyCounts(groups: seq<Group>, v: string)
    ensures Counts(TallyOf(groups), groups, v)
    decreases |groups|
  {
    hide Many, Often, Counts;
    NothingCounted(v);
    if groups != [] {
      var init, g := groups[..|groups| - 1], groups[|groups| - 1];
      assert groups == init + [g];
      TallyCounts(init, v);
      CountsStep(TallyOf(init), init, g, v);
    }
  }

  lemma SameCounts(a: seq<Group>, b: seq<Group>, v: string)
    requires multiset(a) == multiset(b)
    ensures var t, u := TallyOf(a), TallyOf(b);
            && Many(t.plan, v) == Many(u.plan, v) && Many(t.deadline, v) == Many(u.deadline, v)
            && Many(t.timeout, v) == Many(u.timeout, v) && Many(t.formats, v) == Many(u.formats, v)
            && t.overwrites == u.overwrites
  {
    hide Many;
    TallyCounts(a, v);
    TallyCounts(b, v);
  }

  lemma SameValues(s: seq<string>, t: seq<string>)
    requires forall v :: Many(s, v) == Many(t, v)
    ensures multiset(s) == multiset(t)
  {
    forall v: string ensures multiset(s)[v] == multiset(t)[v] {
      assert Many(s, v) == Many(t, v);
    }
  }

  lemma SameTally(a: seq<Group>, b: seq<Group>)
    requires multiset(a) == multiset(b)
    ensures var t, u := TallyOf(a), TallyOf(b);
            && multiset(t.plan) == multiset(u.plan) && multiset(t.deadline) == multiset(u.deadline)
            && multiset(t.timeout) == multiset(u.timeout) && multiset(t.formats) == multiset(u.formats)
            && t.overwrites == u.overwrites
  {
    hide Many, TallyOf;
    var t, u := TallyOf(a), TallyOf(b);
    forall v ensures Many(t.plan, v) == Many(u.plan, v) && Many(t.deadline, v) == Many(u.deadline, v)
                  && Many(t.timeout, v) == Many(u.timeout, v) && Many(t.formats, v) == Many(u.formats, v) {
      SameCounts(a, b, v);
    }
    SameCounts(a, b, "");
    SameValues(t.plan, u.plan);
    SameValues(t.deadline, u.deadline);
    SameValues(t.timeout, u.timeout);
    SameValues(t.formats, u.formats);
  }

  lemma SameSingle(a: seq<string>, b: seq<string>)
    requires multiset(a) == multiset(b) && |a| <= 1
    ensures a == b
  {
    assert |multiset(a)| == |multiset(b)|;
    if |a| == 1 {
      assert a[0] in multiset(a);
    }
  }

  lemma AcceptableOnce(n: Nome, t: Tally)
    requires t.Acceptable(n)
    ensures |t.plan| <= 1 && |t.deadline| <= 1 && |t.timeout| <= 1 && |t.formats| <= 1
  {
    assert t.Times(Plan) == |t.plan|;
  }

  lemma SameReading(n: Nome, a: seq<Group>, b: seq<Group>)
    requires TallyOf(a).Acceptable(n) && SamePieces(a, b)
    ensures TallyOf(a) == TallyOf(b)
  {
    AcceptableOnce(n, TallyOf(a));
    SameTally(a, b);
    SameSingle(TallyOf(a).plan, TallyOf(b).plan);
    SameSingle(TallyOf(a).deadline, TallyOf(b).deadline);
    SameSingle(TallyOf(a).timeout, TallyOf(b).timeout);
    SameSingle(TallyOf(a).formats, TallyOf(b).formats);
  }

  lemma LexicalPieces(a: seq<Group>, b: seq<Group>)
    requires AllLexical(a) && multiset(a) == multiset(b)
    ensures AllLexical(b)
  {
    forall i | 0 <= i < |b| ensures b[i].Lexical() {
      assert b[i] in multiset(b);
      assert b[i] in a;
    }
  }

  lemma LexicalParts(pre: seq<Group>, post: seq<Group>)
    ensures AllLexical(pre + post) <==> AllLexical(pre) && AllLexical(post)
  {
    var all := pre + post;
    assert forall i :: 0 <= i < |pre| ==> all[i] == pre[i];
    assert forall i :: 0 <= i < |post| ==> all[|pre| + i] == post[i];
  }

  /** Two lines read the same values are the same invocation. */
  lemma SameOutcome(n: Nome, t: Tally, l: Letti, m: Letti)
    requires t.ReadsAs(l) && t.ReadsAs(m)
    ensures Composta(n, l) == Composta(n, m)
  {
  }

  lemma OutcomeByTally(n: Nome, a: seq<Group>, b: seq<Group>)
    requires AllLexical(a) && AllLexical(b) && TallyOf(a) == TallyOf(b)
    ensures Outcome(n, a) == Outcome(n, b)
  {
    FoldMeans(n, a);
    FoldMeans(n, b);
    if Fold(n, a, NIENTE).Ok? {
      SameOutcome(n, TallyOf(a), Fold(n, a, NIENTE).value, Fold(n, b, NIENTE).value);
    }
  }

  /** Reordering the groups of an accepted line, or moving `--format json` across them or
      before the command, does not change what is read. */
  lemma OrderDoesNotMatter(pre: seq<Group>, n: Nome, post: seq<Group>, pre': seq<Group>, post': seq<Group>)
    requires AllLexical(pre) && AllFormats(pre) && AllLexical(post) && AllFormats(pre')
    requires SamePieces(pre + post, pre' + post')
    requires Read(Line(pre, n, post)).Ok?
    ensures Read(Line(pre', n, post')) == Read(Line(pre, n, post))
  {
    LexicalParts(pre, post);
    LexicalPieces(pre + post, pre' + post');
    LexicalParts(pre', post');
    LineIsRead(pre, n, post);
    LineIsRead(pre', n, post');
    FoldMeans(n, pre + post);
    SameReading(n, pre + post, pre' + post');
    OutcomeByTally(n, pre + post, pre' + post');
  }

  // ----- printing an invocation

  function NameOf(c: Comando): Nome {
    match c
    case Aiuto => Help case Versione => Version case Capacita => Capabilities case Catalogo => Catalog
    case Descrivi(_) => Describe case Valida(_, _) => Validate case Esegui(_, _, _, _) => Run
  }

  function Text(pair: (string, string)): string { pair.0 + "=" + pair.1 }

  /** NAME=PATH can be written and read back. */
  predicate Writable(pair: (string, string)) {
    pair.0 != "" && '=' !in pair.0 && pair.1 != "" && Plain(Text(pair))
  }

  predicate AllWritable(pairs: seq<(string, string)>) {
    forall i :: 0 <= i < |pairs| ==> Writable(pairs[i])
  }

  function Pairs(uscite: seq<Uscita>): (p: seq<(string, string)>)
    requires forall i :: 0 <= i < |uscite| ==> uscite[i].Nominata?
    ensures |p| == |uscite| && forall i :: 0 <= i < |p| ==> p[i] == (uscite[i].nome, uscite[i].percorso)
  {
    seq(|uscite|, i requires 0 <= i < |uscite| => (uscite[i].nome, uscite[i].percorso))
  }

  /** One unnamed output alone, or one or more named ones. */
  predicate WritableOutputs(u: seq<Uscita>) {
    || (|u| == 1 && u[0].Unica? && Plain(u[0].percorso) && '=' !in u[0].percorso)
    || (u != [] && (forall i :: 0 <= i < |u| ==> u[i].Nominata?) && AllWritable(Pairs(u)))
  }

  predicate WritableTerm(s: Option<Scadenza>) {
    match s
    case None => true
    case Some(Assoluta(t)) => Plain(t)
    case Some(Relativa(ms)) => ms < 0x1_0000_0000_0000_0000
  }

  /** The invocations the grammar can express. */
  predicate WellFormed(inv: Invocazione) {
    match inv.comando
    case Descrivi(ingresso) => Plain(ingresso) && WritableTerm(inv.scadenza)
    case Valida(piano, ingressi) => Plain(piano) && AllWritable(ingressi) && WritableTerm(inv.scadenza)
    case Esegui(piano, ingressi, uscite, _) =>
      Plain(piano) && AllWritable(ingressi) && WritableOutputs(uscite) && WritableTerm(inv.scadenza)
    case _ => inv.scadenza.None?
  }

  function Flags(f: FlagName, values: seq<string>): (g: seq<Group>)
    ensures |g| == |values| && forall i :: 0 <= i < |g| ==> g[i] == FlagGroup(f, values[i])
  {
    seq(|values|, i requires 0 <= i < |values| => FlagGroup(f, values[i]))
  }

  function TextsOf(pairs: seq<(string, string)>): (t: seq<string>)
    ensures |t| == |pairs| && forall i :: 0 <= i < |t| ==> t[i] == Text(pairs[i])
  {
    seq(|pairs|, i requires 0 <= i < |pairs| => Text(pairs[i]))
  }

  function OutputTexts(u: seq<Uscita>): (t: seq<string>)
    ensures |t| == |u|
  {
    seq(|u|, i requires 0 <= i < |u| =>
      match u[i] case Unica(p) => p case Nominata(nome, p) => Text((nome, p)))
  }

  /** The values each flag gets when an invocation is printed. */
  function TallyFor(inv: Invocazione): Tally {
    var (plan, input, output, overwrites) :=
      match inv.comando
      case Descrivi(ingresso) => ([], [ingresso], [], 0)
      case Valida(piano, ingressi) => ([piano], TextsOf(ingressi), [], 0)
      case Esegui(piano, ingressi, uscite, sovrascrivi) =>
        ([piano], TextsOf(ingressi), OutputTexts(uscite), if sovrascrivi then 1 else 0)
      case _ => ([], [], [], 0);
    Tally(plan, input, output, overwrites,
          match inv.scadenza case Some(Assoluta(t)) => [t] case _ => [],
          match inv.scadenza case Some(Relativa(ms)) => [Decimal(ms)] case _ => [],
          if inv.formato.Json? then ["json"] else [])
  }

  /** The groups of a tally, flag by flag. */
  function GroupsOf(t: Tally): seq<Group> {
    ((Flags(Plan, t.plan) + Flags(Input, t.input)) + (Flags(Output, t.output) + OverwriteGroups(t.overwrites)))
    + ((Flags(Deadline, t.deadline) + Flags(TimeoutMs, t.timeout)) + FormatGroups(t.formats))
  }

  function OverwriteGroups(k: nat): (g: seq<Group>)
    ensures |g| == k && forall i :: 0 <= i < k ==> g[i] == OverwriteGroup
  {
    seq(k, _ => OverwriteGroup)
  }

  /** An invocation as a command line. */
  function Print(inv: Invocazione): seq<string> {
    Line([], NameOf(inv.comando), GroupsOf(TallyFor(inv)))
  }

  function Plus(a: Tally, b: Tally): Tally {
    Tally(a.plan + b.plan, a.input + b.input, a.output + b.output, a.overwrites + b.overwrites,
          a.deadline + b.deadline, a.timeout + b.timeout, a.formats + b.formats)
  }

  lemma PlusAdd(a: Tally, b: Tally, g: Group)
    ensures Plus(a, b.Add(g)) == Plus(a, b).Add(g)
  {
    match g
    case FormatGroup(v) => assert a.formats + (b.formats + [v]) == a.formats + b.formats + [v];
    case OverwriteGroup =>
    case FlagGroup(Plan, v) => assert a.plan + (b.plan + [v]) == a.plan + b.plan + [v];
    case FlagGroup(Input, v) => assert a.input + (b.input + [v]) == a.input + b.input + [v];
    case FlagGroup(Output, v) => assert a.output + (b.output + [v]) == a.output + b.output + [v];
    case FlagGroup(Deadline, v) => assert a.deadline + (b.deadline + [v]) == a.deadline + b.deadline + [v];
    case FlagGroup(TimeoutMs, v) => assert a.timeout + (b.timeout + [v]) == a.timeout + b.timeout + [v];
    case FlagGroup(Overwrite, v) =>
  }

  lemma {:induction false} TallyAppend(a: seq<Group>, b: seq<Group>)
    ensures TallyOf(a + b) == Plus(TallyOf(a), TallyOf(b))
    decreases |b|
  {
    if b == [] {
      assert a + b == a;
      assert Plus(TallyOf(a), NESSUNO) == TallyOf(a);
    } else {
      var all, init, g := a + b, b[..|b| - 1], b[|b| - 1];
      assert all[..|all| - 1] == a + init && all[|all| - 1] == g;
      TallyAppend(a, init);
      PlusAdd(TallyOf(a), TallyOf(init), g);
    }
  }

  function Only(f: FlagName, values: seq<string>): Tally {
    match f
    case Plan => NESSUNO.(plan := values) case Input => NESSUNO.(input := values)
    case Output => NESSUNO.(output := values) case Deadline => NESSUNO.(deadline := values)
    case TimeoutMs => NESSUNO.(timeout := values) case Overwrite => NESSUNO
  }

  lemma {:induction false} TallyOfFlags(f: FlagName, values: seq<string>)
    ensures TallyOf(Flags(f, values)) == Only(f, values)
    decreases |values|
  {
    if values != [] {
      var n := |values| - 1;
      assert Flags(f, values)[..n] == Flags(f, values[..n]);
      TallyOfFlags(f, values[..n]);
      assert values == values[..n] + [values[n]];
    }
  }

  lemma {:induction false} TallyOfOverwrites(k: nat)
    ensures TallyOf(OverwriteGroups(k)) == NESSUNO.(overwrites := k)
  {
    if k > 0 {
      assert OverwriteGroups(k)[..k - 1] == OverwriteGroups(k - 1);
      TallyOfOverwrites(k - 1);
    }
  }

  function FormatGroups(values: seq<string>): (g: seq<Group>)
    ensures |g| == |values| && forall i :: 0 <= i < |g| ==> g[i] == FormatGroup(values[i])
  {
    seq(|values|, i requires 0 <= i < |values| => FormatGroup(values[i]))
  }

  lemma {:induction false} TallyOfFormats(values: seq<string>)
    ensures TallyOf(FormatGroups(values)) == NESSUNO.(formats := values)
    decreases |values|
  {
    if values != [] {
      var n := |values| - 1;
      assert FormatGroups(values)[..n] == FormatGroups(values[..n]);
      TallyOfFormats(values[..n]);
      assert values == values[..n] + [values[n]];
    }
  }

  /** The groups of a tally tally to it. */
  lemma TallyOfGroups(t: Tally)
    ensures TallyOf(GroupsOf(t)) == t
  {
    TallyOfFlags(Plan, t.plan);
    TallyOfFlags(Input, t.input);
    TallyOfFlags(Output, t.output);
    TallyOfOverwrites(t.overwrites);
    TallyOfFlags(Deadline, t.deadline);
    TallyOfFlags(TimeoutMs, t.timeout);
    TallyOfFormats(t.formats);
    TallyAppend(Flags(Plan, t.plan), Flags(Input, t.input));
    TallyAppend(Flags(Output, t.output), OverwriteGroups(t.overwrites));
    TallyAppend(Flags(Plan, t.plan) + Flags(Input, t.input), Flags(Output, t.output) + OverwriteGroups(t.overwrites));
    TallyAppend(Flags(Deadline, t.deadline), Flags(TimeoutMs, t.timeout));
    TallyAppend(Flags(Deadline, t.deadline) + Flags(TimeoutMs, t.timeout), FormatGroups(t.formats));
    TallyAppend((Flags(Plan, t.plan) + Flags(Input, t.input))
                + (Flags(Output, t.output) + OverwriteGroups(t.overwrites)),
                (Flags(Deadline, t.deadline) + Flags(TimeoutMs, t.timeout)) + FormatGroups(t.formats));
    UnitTallies(t);
  }

  lemma UnitTallies(t: Tally)
    ensures Plus(Plus(Plus(Only(Plan, t.plan), Only(Input, t.input)),
                      Plus(Only(Output, t.output), NESSUNO.(overwrites := t.overwrites))),
                 Plus(Plus(Only(Deadline, t.deadline), Only(TimeoutMs, t.timeout)),
                      NESSUNO.(formats := t.formats))) == t
  {
  }

  /** Every value of a tally may be written as a value. */
  ghost predicate AllValues(t: Tally) {
    && (forall i :: 0 <= i < |t.plan| ==> Plain(t.plan[i]))
    && (forall i :: 0 <= i < |t.input| ==> Plain(t.input[i]))
    && (forall i :: 0 <= i < |t.output| ==> Plain(t.output[i]))
    && (forall i :: 0 <= i < |t.deadline| ==> Plain(t.deadline[i]))
    && (forall i :: 0 <= i < |t.timeout| ==> Plain(t.timeout[i]))
    && (forall i :: 0 <= i < |t.formats| ==> Plain(t.formats[i]))
  }

  lemma GroupsAreLexical(t: Tally)
    requires AllValues(t)
    ensures AllLexical(GroupsOf(t))
  {
    LexicalParts(Flags(Plan, t.plan), Flags(Input, t.input));
    LexicalParts(Flags(Output, t.output), OverwriteGroups(t.overwrites));
    LexicalParts(Flags(Plan, t.plan) + Flags(Input, t.input), Flags(Output, t.output) + OverwriteGroups(t.overwrites));
    LexicalParts(Flags(Deadline, t.deadline), Flags(TimeoutMs, t.timeout));
    LexicalParts(Flags(Deadline, t.deadline) + Flags(TimeoutMs, t.timeout), FormatGroups(t.formats));
    LexicalParts((Flags(Plan, t.plan) + Flags(Input, t.input))
                 + (Flags(Output, t.output) + OverwriteGroups(t.overwrites)),
                 (Flags(Deadline, t.deadline) + Flags(TimeoutMs, t.timeout)) + FormatGroups(t.formats));
  }

  lemma {:induction false} LexicalValues(groups: seq<Group>)
    requires AllLexical(groups)
    ensures AllValues(TallyOf(groups))
    decreases |groups|
  {
    if groups != [] {
      LexicalValues(groups[..|groups| - 1]);
    }
  }

  // ----- NAME=PATH

  lemma {:induction false} SplitAtFirst(nome: string, percorso: string, k: nat)
    requires '=' !in nome && k <= |nome|
    ensures SplitOnce(nome + "=" + percorso, k) == Some((nome, percorso))
    decreases |nome| - k
  {
    var text := nome + "=" + percorso;
    if k == |nome| {
      assert text[k] == '=' && text[..k] == nome && text[k + 1..] == percorso;
    } else {
      assert text[k] == nome[k] && nome[k] in nome;
      SplitAtFirst(nome, percorso, k + 1);
    }
  }

  lemma {:induction false} SplitMeans(text: string, k: nat)
    requires k <= |text| && '=' !in text[..k]
    ensures match SplitOnce(text, k)
            case None => '=' !in text
            case Some((nome, percorso)) => text == nome + "=" + percorso && '=' !in nome
    decreases |text| - k
  {
    if k == |text| {
      assert text[..k] == text;
    } else if text[k] == '=' {
      assert text == text[..k] + [text[k]] + text[k + 1..];
    } else {
      assert text[..k + 1] == text[..k] + [text[k]];
      SplitMeans(text, k + 1);
    }
  }

  lemma NamedRoundTrip(pair: (string, string))
    requires Writable(pair)
    ensures Nominato(Text(pair)) == Some(pair) && '=' in Text(pair)
  {
    SplitAtFirst(pair.0, pair.1, 0);
    assert Text(pair)[|pair.0|] == '=';
  }

  lemma NamedIsWritable(text: string)
    requires Plain(text) && Nominato(text).Some?
    ensures Writable(Nominato(text).value) && Text(Nominato(text).value) == text
  {
    SplitMeans(text, 0);
  }

  lemma {:induction false} NamedAll(pairs: seq<(string, string)>)
    requires AllWritable(pairs)
    ensures NominatiTutti(TextsOf(pairs)) == Some(pairs)
    decreases |pairs|
  {
    if pairs != [] {
      var n := |pairs| - 1;
      assert TextsOf(pairs)[..n] == TextsOf(pairs[..n]);
      NamedAll(pairs[..n]);
      NamedRoundTrip(pairs[n]);
      assert pairs == pairs[..n] + [pairs[n]];
    }
  }

  lemma {:induction false} AllNamedWritable(texts: seq<string>)
    requires NominatiTutti(texts).Some? && forall i :: 0 <= i < |texts| ==> Plain(texts[i])
    ensures AllWritable(NominatiTutti(texts).value) && TextsOf(NominatiTutti(texts).value) == texts
    decreases |texts|
  {
    if texts != [] {
      var n := |texts| - 1;
      AllNamedWritable(texts[..n]);
      NamedIsWritable(texts[n]);
      assert texts == texts[..n] + [texts[n]];
    }
  }

  lemma OutputsRoundTrip(u: seq<Uscita>)
    requires WritableOutputs(u)
    ensures UsciteDi(OutputTexts(u)) == Some(u)
  {
    var texts := OutputTexts(u);
    if u[0].Nominata? {
      var pairs := Pairs(u);
      assert texts == TextsOf(pairs);
      NamedRoundTrip(pairs[0]);
      NamedAll(pairs);
      assert AsUscite(pairs) == u;
    } else {
      assert texts == [u[0].percorso];
      assert u == [u[0]];
    }
  }

  lemma OutputsAreWritable(texts: seq<string>)
    requires UsciteDi(texts).Some? && forall i :: 0 <= i < |texts| ==> Plain(texts[i])
    ensures WritableOutputs(UsciteDi(texts).value)
  {
    var u := UsciteDi(texts).value;
    if !(|texts| == 1 && '=' !in texts[0]) {
      AllNamedWritable(texts);
      assert Pairs(u) == NominatiTutti(texts).value;
    }
  }

  // ----- reading and printing undo each other

  /** The values an invocation prints may be written as values. */
  lemma PrintedValues(inv: Invocazione)
    requires WellFormed(inv)
    ensures AllValues(TallyFor(inv))
  {
    var t := TallyFor(inv);
    assert Plain("json") by { assert "json"[0] == 'j'; }
    assert forall i :: 0 <= i < |t.formats| ==> t.formats[i] == "json";
    if inv.scadenza.Some? && inv.scadenza.value.Relativa? {
      DecimalIsPlain(inv.scadenza.value.millisecondi);
    }
    if inv.comando.Esegui? && inv.comando.uscite[0].Nominata? {
      assert OutputTexts(inv.comando.uscite) == TextsOf(Pairs(inv.comando.uscite));
    }
  }

  /** The values of a line are those of an invocation, milliseconds in any decimal form. */
  predicate Carries(t: Tally, inv: Invocazione) {
    && t.(timeout := []) == TallyFor(inv).(timeout := [])
    && match inv.scadenza
       case Some(Relativa(ms)) =>
         |t.timeout| == 1 && t.timeout[0] != "" && Digits(t.timeout[0]) && Number(t.timeout[0]) == ms
       case _ => t.timeout == []
  }

  lemma PrintedCarries(inv: Invocazione)
    ensures Carries(TallyFor(inv), inv)
  {
    if inv.scadenza.Some? && inv.scadenza.value.Relativa? {
      DecimalReads(inv.scadenza.value.millisecondi);
    }
  }

  lemma CarriedAcceptable(t: Tally, inv: Invocazione)
    requires WellFormed(inv) && Carries(t, inv)
    ensures t.Acceptable(NameOf(inv.comando))
  {
    var u := TallyFor(inv);
    assert t.plan == u.plan && t.input == u.input && t.output == u.output && t.overwrites == u.overwrites;
    assert t.deadline == u.deadline && t.formats == u.formats;
  }

  lemma DecimalIsPlain(n: nat)
    ensures Plain(Decimal(n))
  {
    assert '0' <= Decimal(n)[0];
  }

  lemma TermBack(t: Tally, inv: Invocazione)
    requires WritableTerm(inv.scadenza) && Carries(t, inv)
    ensures t.Termine() == inv.scadenza
  {
    assert t.deadline == TallyFor(inv).deadline;
  }

  /** Reading the values of an invocation composes it again. */
  lemma ComposedBack(t: Tally, inv: Invocazione, l: Letti)
    requires WellFormed(inv) && Carries(t, inv) && t.ReadsAs(l)
    ensures Composta(NameOf(inv.comando), l) == Ok(inv)
  {
    hide UsciteDi, NominatiTutti, AllWritable, WritableOutputs, Plain, WritableTerm, ParseMillis;
    TermBack(t, inv);
    var u := TallyFor(inv);
    assert t.plan == u.plan && t.input == u.input && t.output == u.output && t.overwrites == u.overwrites;
    assert t.formats == u.formats;
    match inv.comando
    case Valida(_, ingressi) => NamedAll(ingressi);
    case Esegui(_, ingressi, uscite, _) =>
      NamedAll(ingressi);
      OutputsRoundTrip(uscite);
    case _ =>
  }

  /** A line is read as an invocation exactly when it is formats, the command and groups that carry
      the invocation's values, and the grammar can express it. */
  lemma ReadsExactly(argomenti: seq<string>, inv: Invocazione)
    ensures Read(argomenti) == Ok(inv) <==> WellFormed(inv) && Expresses(argomenti, inv)
  {
    hide Line, TallyOf, WellFormed, Carries, Read, NomeComandoDa, Outcome;
    if Read(argomenti) == Ok(inv) {
      var pre, n, post := AcceptedIsLine(argomenti);
      LexicalParts(pre, post);
      OutcomeCarries(n, pre + post, inv);
      assert Expression(argomenti, inv, pre, post);
    }
    if WellFormed(inv) && Expresses(argomenti, inv) {
      var pre, post :| Expression(argomenti, inv, pre, post);
      LexicalParts(pre, post);
      LineIsRead(pre, NameOf(inv.comando), post);
      OutcomeOf(pre + post, inv);
    }
  }

  ghost predicate Expression(argomenti: seq<string>, inv: Invocazione, pre: seq<Group>, post: seq<Group>) {
    && AllLexical(pre) && AllFormats(pre) && AllLexical(post)
    && argomenti == Line(pre, NameOf(inv.comando), post) && Carries(TallyOf(pre + post), inv)
  }

  ghost predicate Expresses(argomenti: seq<string>, inv: Invocazione) {
    exists pre, post :: Expression(argomenti, inv, pre, post)
  }

  lemma OutcomeOf(groups: seq<Group>, inv: Invocazione)
    requires AllLexical(groups) && WellFormed(inv) && Carries(TallyOf(groups), inv)
    ensures Outcome(NameOf(inv.comando), groups) == Ok(inv)
  {
    hide WellFormed, Carries, TallyOf, Composta;
    CarriedAcceptable(TallyOf(groups), inv);
    FoldMeans(NameOf(inv.comando), groups);
    ComposedBack(TallyOf(groups), inv, Fold(NameOf(inv.comando), groups, NIENTE).value);
  }

  lemma OutcomeCarries(n: Nome, groups: seq<Group>, inv: Invocazione)
    requires AllLexical(groups) && Outcome(n, groups) == Ok(inv)
    ensures WellFormed(inv) && NameOf(inv.comando) == n && Carries(TallyOf(groups), inv)
  {
    hide WellFormed, Carries, TallyOf, Composta;
    FoldMeans(n, groups);
    LexicalValues(groups);
    ComposedIsWellFormed(n, TallyOf(groups), Fold(n, groups, NIENTE).value);
    ComposedCarries(n, TallyOf(groups), Fold(n, groups, NIENTE).value);
  }

  /** A printed well-formed invocation is read back as itself. */
  lemma PrintThenRead(inv: Invocazione)
    requires WellFormed(inv)
    ensures Read(Print(inv)) == Ok(inv)
  {
    var n := NameOf(inv.comando);
    var groups := GroupsOf(TallyFor(inv));
    PrintedValues(inv);
    PrintedCarries(inv);
    GroupsAreLexical(TallyFor(inv));
    TallyOfGroups(TallyFor(inv));
    LineIsRead([], n, groups);
    assert [] + groups == groups;
    OutcomeOf(groups, inv);
  }

  /** What acceptance says of each flag, command by command. */
  lemma AcceptableCounts(n: Nome, t: Tally)
    requires t.Acceptable(n)
    ensures |t.plan| <= 1 && t.overwrites <= 1 && (t.formats == [] || t.formats == ["json"])
    ensures n.Describe? ==> |t.input| <= 1
    ensures !n.Validate? && !n.Run? ==> t.plan == []
    ensures !n.Run? ==> t.output == [] && t.overwrites == 0
    ensures !n.Describe? && !n.Validate? && !n.Run? ==> t.input == [] && t.deadline == [] && t.timeout == []
  {
    assert t.Times(Plan) == |t.plan| && t.Times(Input) == |t.input| && t.Times(Output) == |t.output|;
    assert t.Times(Overwrite) == t.overwrites;
    assert t.Times(Deadline) == |t.deadline| && t.Times(TimeoutMs) == |t.timeout|;
  }

  lemma TermCarried(n: Nome, t: Tally)
    requires t.Acceptable(n)
    ensures match t.Termine()
            case None => t.deadline == [] && t.timeout == []
            case Some(Assoluta(d)) => t.deadline == [d] && t.timeout == []
            case Some(Relativa(ms)) =>
              t.deadline == [] && |t.timeout| == 1
              && t.timeout[0] != "" && Digits(t.timeout[0]) && Number(t.timeout[0]) == ms
  {
    hide Allowed, Repeatable;
  }

  /** The values read are all carried by what they compose. */
  lemma ComposedCarries(n: Nome, t: Tally, l: Letti)
    requires t.Acceptable(n) && AllValues(t) && t.ReadsAs(l) && Composta(n, l).Ok?
    ensures Carries(t, Composta(n, l).value)
  {
    hide Allowed, Repeatable, NominatiTutti, UsciteDi, ParseMillis, TextsOf, OutputTexts, Plain;
    hide Tally.Acceptable, Tally.Times, Tally.Termine, Digits, Number;
    AcceptableCounts(n, t);
    TermCarried(n, t);
    match n
    case Validate => AllNamedWritable(t.input);
    case Run =>
      AllNamedWritable(t.input);
      OutputsCarried(t.output);
    case _ =>
  }

  lemma OutputsCarried(texts: seq<string>)
    requires UsciteDi(texts).Some? && forall i :: 0 <= i < |texts| ==> Plain(texts[i])
    ensures OutputTexts(UsciteDi(texts).value) == texts
  {
    if !(|texts| == 1 && '=' !in texts[0]) {
      AllNamedWritable(texts);
    }
  }

  lemma {:induction false} FlattenCons(g: Group, rest: seq<Group>)
    ensures Flatten([g] + rest) == g.Tokens() + Flatten(rest)
  {
    Cons(Help, g, rest, NIENTE);
  }

  /** A printed `run` line spells out the tokens of the grammar. */
  lemma PrintedRun(p: string, a: string, b: string, o: string)
    ensures Print(Invocazione(Esegui(p, [(a, b)], [Unica(o)], true), Json, Some(Relativa(5))))
         == ["run", "--plan", p, "--input", a + "=" + b, "--output", o, "--overwrite", "--timeout-ms", "5",
             "--format", "json"]
  {
    hide Flatten, TallyFor, GroupsOf, Decimal;
    RunTally(p, a, b, o);
    RunGroups(p, a + "=" + b, o);
    NothingFlattened();
  }

  lemma RunGroups(p: string, i: string, o: string)
    ensures Flatten(GroupsOf(Tally([p], [i], [o], 1, [], ["5"], ["json"])))
         == ["--plan", p, "--input", i, "--output", o, "--overwrite", "--timeout-ms", "5", "--format", "json"]
  {
    hide Flatten;
    NothingFlattened();
    var f6 := [FormatGroup("json")] + [];
    var f5 := [FlagGroup(TimeoutMs, "5")] + f6;
    var f4 := [OverwriteGroup] + f5;
    var f3 := [FlagGroup(Output, o)] + f4;
    var f2 := [FlagGroup(Input, i)] + f3;
    assert GroupsOf(Tally([p], [i], [o], 1, [], ["5"], ["json"])) == [FlagGroup(Plan, p)] + f2;
    hide GroupsOf;
    FlattenCons(FormatGroup("json"), []);
    FlattenCons(FlagGroup(TimeoutMs, "5"), f6);
    FlattenCons(OverwriteGroup, f5);
    FlattenCons(FlagGroup(Output, o), f4);
    FlattenCons(FlagGroup(Input, i), f3);
    FlattenCons(FlagGroup(Plan, p), f2);
  }

  lemma RunTally(p: string, a: string, b: string, o: string)
    ensures TallyFor(Invocazione(Esegui(p, [(a, b)], [Unica(o)], true), Json, Some(Relativa(5))))
         == Tally([p], [a + "=" + b], [o], 1, [], ["5"], ["json"])
  {
    assert Decimal(5) == "5";
  }

  /** So do the other commands. */
  lemma PrintedValidate(p: string, t: string)
    ensures Print(Invocazione(Valida(p, []), Implicito, Some(Assoluta(t))))
         == ["validate", "--plan", p, "--deadline", t]
  {
    hide Flatten;
    NothingFlattened();
    FlattenCons(FlagGroup(Deadline, t), []);
    FlattenCons(FlagGroup(Plan, p), [FlagGroup(Deadline, t)]);
    assert GroupsOf(TallyFor(Invocazione(Valida(p, []), Implicito, Some(Assoluta(t)))))
        == [FlagGroup(Plan, p)] + [FlagGroup(Deadline, t)];
    assert [FlagGroup(Deadline, t)] + [] == [FlagGroup(Deadline, t)];
  }

  lemma PrintedDescribe(i: string)
    ensures Print(Invocazione(Descrivi(i), Implicito, None)) == ["describe", "--input", i]
  {
    hide Flatten;
    NothingFlattened();
    FlattenCons(FlagGroup(Input, i), []);
    assert GroupsOf(TallyFor(Invocazione(Descrivi(i), Implicito, None))) == [FlagGroup(Input, i)] + [];
  }

  lemma PrintedAlone(c: Comando)
    requires c in {Aiuto, Versione, Capacita, Catalogo}
    ensures Print(Invocazione(c, Implicito, None))
         == [match c
             case Aiuto => "--help" case Versione => "--version" case Capacita => "capabilities" case _ => "catalog"]
  {
    hide Flatten;
    NothingFlattened();
    assert GroupsOf(NESSUNO) == [];
  }

  lemma NothingFlattened()
    ensures Flatten([]) == []
  {
  }

  lemma ComposedIsWellFormed(n: Nome, t: Tally, l: Letti)
    requires t.Acceptable(n) && AllValues(t) && t.ReadsAs(l) && Composta(n, l).Ok?
    ensures WellFormed(Composta(n, l).value) && NameOf(Composta(n, l).value.comando) == n
  {
    assert t.Times(Deadline) == |t.deadline| && t.Times(TimeoutMs) == |t.timeout|;
    match n
    case Validate => AllNamedWritable(t.input);
    case Run =>
      AllNamedWritable(t.input);
      OutputsAreWritable(t.output);
    case _ =>
  }

  /** The reader only produces well-formed invocations, under the name `nome_comando` reports. */
  lemma ReadIsWellFormed(argomenti: seq<string>)
    requires Read(argomenti).Ok?
    ensures WellFormed(Read(argomenti).value)
    ensures NomeComandoDa(argomenti, 0) == Some(NameOf(Read(argomenti).value.comando))
  {
    var pre, n, post := AcceptedIsLine(argomenti);
    var groups := pre + post;
    LexicalParts(pre, post);
    FoldMeans(n, groups);
    LexicalValues(groups);
    ComposedIsWellFormed(n, TallyOf(groups), Fold(n, groups, NIENTE).value);
  }

  /** Printing what was read gives the canonical line of the same invocation. */
  lemma ReadThenPrint(argomenti: seq<string>)
    requires Read(argomenti).Ok?
    ensures Read(Print(Read(argomenti).value)) == Read(argomenti)
  {
    ReadIsWellFormed(argomenti);
    PrintThenRead(Read(argomenti).value);
  }
}
