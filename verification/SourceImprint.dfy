/** `Impronta` and `leggi_sorgente`: a writer that counts, hashes and keeps the first bytes
    of a source while it is copied, whatever pieces the copy arrives in. */
module SourceImprint {
  import opened Integers
  import opened Wrappers

  type byte = x: int | 0 <= x < 256

  const U64_MAX := 0xFFFF_FFFF_FFFF_FFFF
  const KEPT := 8

  /** `saturating_add` on u64 counts. */
  function SaturatingAdd(a: int, b: int): int { Min(a + b, U64_MAX) }

  /** What the writer remembers; the hash state is the bytes it has absorbed. */
  datatype Memory = Memory(count: int, hashed: seq<byte>, start: seq<byte>)

  const EMPTY := Memory(0, [], [])

  /** The bytes an inner write accepted, added to the memory. */
  function Absorb(m: Memory, written: seq<byte>): Memory {
    var missing := if |m.start| < KEPT then KEPT - |m.start| else 0;
    Memory(SaturatingAdd(m.count, |written|), m.hashed + written, m.start + written[..Min(|written|, missing)])
  }

  function AbsorbAll(pieces: seq<seq<byte>>): Memory {
    if pieces == [] then EMPTY else Absorb(AbsorbAll(pieces[..|pieces| - 1]), pieces[|pieces| - 1])
  }

  function Concat(pieces: seq<seq<byte>>): seq<byte> {
    if pieces == [] then [] else Concat(pieces[..|pieces| - 1]) + pieces[|pieces| - 1]
  }

  /** The memory of a content absorbed in one piece. */
  function Summary(content: seq<byte>): Memory {
    Memory(Min(|content|, U64_MAX), content, content[..Min(|content|, KEPT)])
  }

  lemma AbsorbSummary(content: seq<byte>, written: seq<byte>)
    ensures Absorb(Summary(content), written) == Summary(content + written)
  {
    var all := content + written;
    if |content| < KEPT {
      assert content[..Min(|content|, KEPT)] == content;
      assert content + written[..Min(|written|, KEPT - |content|)] == all[..Min(|all|, KEPT)];
    } else {
      assert all[..KEPT] == content[..KEPT];
    }
  }

  /** However the content is cut, and wherever writes stop short, the memory is the same. */
  lemma {:induction false} ChunkingIndependence(pieces: seq<seq<byte>>)
    ensures AbsorbAll(pieces) == Summary(Concat(pieces))
  {
    if pieces != [] {
      ChunkingIndependence(pieces[..|pieces| - 1]);
      AbsorbSummary(Concat(pieces[..|pieces| - 1]), pieces[|pieces| - 1]);
    }
  }

  // ----- the signature of the declared format

  datatype Formato = ArrowIpc | ArrowIpcStream | Parquet

  const ARROW_FILE: seq<byte> := [65, 82, 82, 79, 87, 49]
  const PARQUET_FILE: seq<byte> := [80, 65, 82, 49]

  /** `firma_coerente`. */
  predicate FirmaCoerente(formato: Formato, inizio: seq<byte>) {
    match formato
    case ArrowIpc => ARROW_FILE <= inizio
    case ArrowIpcStream => !(ARROW_FILE <= inizio) && !(PARQUET_FILE <= inizio)
    case Parquet => PARQUET_FILE <= inizio
  }

  /** Eight bytes are enough to judge the whole content. */
  lemma SignatureOnPrefix(formato: Formato, content: seq<byte>)
    ensures FirmaCoerente(formato, Summary(content).start) <==> FirmaCoerente(formato, content)
  {
    var start := content[..Min(|content|, KEPT)];
    PrefixOfPrefix(ARROW_FILE, content, start);
    PrefixOfPrefix(PARQUET_FILE, content, start);
  }

  lemma PrefixOfPrefix(p: seq<byte>, content: seq<byte>, start: seq<byte>)
    requires |p| <= KEPT && start == content[..Min(|content|, KEPT)]
    ensures p <= start <==> p <= content
  {
    if p <= content { assert p == content[..|p|] == start[..|p|]; }
    if p <= start { assert p == start[..|p|] == content[..|p|]; }
  }

  /** The content begins with the characters of the text. */
  predicate Begins(content: seq<byte>, text: string) {
    |text| <= |content| && forall i :: 0 <= i < |text| ==> content[i] == text[i] as int
  }

  /** What the first bytes say the content is. */
  function FormatOf(content: seq<byte>): Formato {
    if Begins(content, "ARROW1") then ArrowIpc
    else if Begins(content, "PAR1") then Parquet
    else ArrowIpcStream
  }

  lemma BeginsIs(content: seq<byte>)
    ensures ARROW_FILE <= content <==> Begins(content, "ARROW1")
    ensures PARQUET_FILE <= content <==> Begins(content, "PAR1")
  {
    var a, p := "ARROW1", "PAR1";
    assert a[0] == 'A' && a[1] == 'R' && a[2] == 'R' && a[3] == 'O' && a[4] == 'W' && a[5] == '1';
    assert p[0] == 'P' && p[1] == 'A' && p[2] == 'R' && p[3] == '1';
  }

  /** Every content is coherent with exactly the format its first bytes say. */
  lemma OneFormat(content: seq<byte>, f: Formato)
    ensures FirmaCoerente(f, content) <==> f == FormatOf(content)
  {
    BeginsIs(content);
    assert ARROW_FILE <= content ==> content[0] == 65;
    assert PARQUET_FILE <= content ==> content[0] == 80;
  }

  // ----- the writer

  /** One call of the resolver: the bytes it offers, and how many the inner writer takes. */
  datatype Offerta = Offerta(dati: seq<byte>, accettati: Option<nat>) {
    predicate Plausible() { accettati.Some? ==> accettati.value <= |dati| }

    /** The bytes that reach the file. */
    function Written(): seq<byte>
      requires Plausible()
    {
      if accettati.None? then [] else dati[..accettati.value]
    }
  }

  class Impronta {
    var interno: seq<byte>
    var conto: int
    var hash: seq<byte>
    var inizio: seq<byte>

    ghost function Value(): Memory
      reads this
    {
      Memory(conto, hash, inizio)
    }

    /** The memory is the summary of what reached the file. */
    ghost predicate Valid()
      reads this
    {
      Value() == Summary(interno)
    }

    constructor ()
      ensures Valid() && interno == []
    {
      interno, conto, hash, inizio := [], 0, [], [];
    }

    /** `write`: an inner failure changes nothing. */
    method Write(offerta: Offerta) returns (scritti: Option<nat>)
      requires Valid() && offerta.Plausible()
      modifies this
      ensures Valid() && interno == old(interno) + offerta.Written() && scritti == offerta.accettati
    {
      if offerta.accettati.None? {
        return None;
      }
      var scrittiQui := offerta.dati[..offerta.accettati.value];
      AbsorbSummary(interno, scrittiQui);
      interno := interno + scrittiQui;
      hash := hash + scrittiQui;
      conto := SaturatingAdd(conto, |scrittiQui|);
      var mancano := if |inizio| < KEPT then KEPT - |inizio| else 0;
      inizio := inizio + scrittiQui[..Min(|scrittiQui|, mancano)];
      return offerta.accettati;
    }
  }

  function WrittenPieces(offerte: seq<Offerta>): (p: seq<seq<byte>>)
    requires forall i :: 0 <= i < |offerte| ==> offerte[i].Plausible()
    ensures |p| == |offerte| && forall i :: 0 <= i < |p| ==> p[i] == offerte[i].Written()
  {
    seq(|offerte|, i requires 0 <= i < |offerte| => offerte[i].Written())
  }

  // ----- reading one source

  /** `Attesa`: the declared size and digest, where given. */
  datatype Attesa = Attesa(size: Option<int>, sha256: Option<string>)

  datatype SourceError = LetturaFallita | SizeDiverso | Sha256Diverso | TipoDiverso

  /** The content has the declared size, as far as a 64-bit count can tell. */
  predicate SizeMatches(content: seq<byte>, attesa: Option<Attesa>) {
    attesa.Some? && attesa.value.size.Some? ==>
      attesa.value.size.value == if |content| < 0xFFFF_FFFF_FFFF_FFFF then |content| else 0xFFFF_FFFF_FFFF_FFFF
  }

  predicate DigestMatches(content: seq<byte>, attesa: Option<Attesa>, digest: seq<byte> -> string) {
    attesa.Some? && attesa.value.sha256.Some? ==> attesa.value.sha256.value == digest(content)
  }

  /** `leggi_sorgente`: what was copied is judged as a whole, however the resolver wrote it: size, then
      digest, then format. `letta` tells whether the resolver and the final flush succeeded; `digest`
      is SHA-256. */
  method LeggiSorgente(offerte: seq<Offerta>, letta: bool, attesa: Option<Attesa>, formato: Formato,
                       digest: seq<byte> -> string)
    returns (r: Result<(), SourceError>)
    requires forall i :: 0 <= i < |offerte| ==> offerte[i].Plausible()
    ensures r == Err(LetturaFallita) <==> !letta
    ensures var content := Concat(WrittenPieces(offerte));
            var size, sha256 := SizeMatches(content, attesa), DigestMatches(content, attesa, digest);
            && (r.Ok? <==> letta && size && sha256 && formato == FormatOf(content))
            && (r == Err(SizeDiverso) <==> letta && !size)
            && (r == Err(Sha256Diverso) <==> letta && size && !sha256)
            && (r == Err(TipoDiverso) <==> letta && size && sha256 && formato != FormatOf(content))
  {
    hide FirmaCoerente, FormatOf, WrittenPieces;
    var impronta := new Impronta();
    ghost var pezzi := WrittenPieces(offerte);
    for k := 0 to |offerte|
      invariant impronta.Valid() && fresh(impronta)
      invariant impronta.interno == Concat(pezzi[..k])
    {
      var scritti := impronta.Write(offerte[k]);
      assert pezzi[..k + 1][..k] == pezzi[..k];
    }
    assert pezzi[..|offerte|] == pezzi;
    if !letta {
      return Err(LetturaFallita);
    }
    if attesa.Some? {
      if attesa.value.size.Some? && attesa.value.size.value != impronta.conto {
        return Err(SizeDiverso);
      }
      if attesa.value.sha256.Some? && attesa.value.sha256.value != digest(impronta.hash) {
        return Err(Sha256Diverso);
      }
    }
    SignatureOnPrefix(formato, impronta.interno);
    OneFormat(impronta.interno, formato);
    if !FirmaCoerente(formato, impronta.inizio) {
      return Err(TipoDiverso);
    }
    return Ok(());
  }
}
