/**
 * The withdrawal service (src/services/SaqueService.ts): the input validator
 * `validarValor` and the greedy note breakdown `calcularSaque`. Both throw an
 * `Error` on failure; here they return the error as a value.
 */
module SaqueService {
  import opened Wrappers
  import opened JsValues
  import opened Types

  /** The errors the service throws, one per message. */
  datatype SaqueErro =
    | NumeroInvalido                                // "O valor deve ser um número válido"
    | NaoInteiro                                    // "O valor deve ser um número inteiro"
    | NaoPositivo                                   // "O valor deve ser maior que zero"
    | AbaixoDoMinimo                                // "O valor mínimo para saque é R$ 2"
    | NaoRepresentavel(valor: int, restante: int)   // the amount and the leftover the notes missed

  /**
   * The `message` of the thrown `Error`. Each validator error has one fixed
   * text; the breakdown's error interpolates the amount and the leftover.
   */
  function Mensagem(e: SaqueErro): (m: Message)
    ensures e.NaoRepresentavel? <==> |m| == 5
    ensures !e.NaoRepresentavel? ==> |m| == 1 && m[0].Lit?
    ensures e.NaoRepresentavel? ==> m[1] == Interp(e.valor) && m[3] == Interp(e.restante)
  {
    match e
    case NumeroInvalido => [Lit("O valor deve ser um número válido")]
    case NaoInteiro => [Lit("O valor deve ser um número inteiro")]
    case NaoPositivo => [Lit("O valor deve ser maior que zero")]
    case AbaixoDoMinimo => [Lit("O valor mínimo para saque é R$ 2")]
    case NaoRepresentavel(v, r) =>
      [ Lit("Não é possível sacar o valor de R$ "), Interp(v),
        Lit(". As cédulas disponíveis são: 100, 50, 20, 10, 5 e 2. Valor de R$ "), Interp(r),
        Lit(" não pode ser representado com essas cédulas.") ]
  }

  /** Distinct errors are thrown with distinct messages: the message identifies the error. */
  lemma MensagemInjetiva(e1: SaqueErro, e2: SaqueErro)
    ensures Mensagem(e1) == Mensagem(e2) ==> e1 == e2
  {
  }

  /** The amounts the validator lets through: integers of at least the minimum withdrawal. */
  predicate Aceitavel(v: JsValue) {
    v.Num? && IsInteger(v.n) && v.n.x >= ValorMinimo as real
  }

  /**
   * `validarValor`: four checks in order, the first failing one decides the
   * error. Each error is characterised independently of the order of checks.
   */
  function ValidarValor(v: JsValue): (r: Outcome<SaqueErro>)
    ensures r.Pass? <==> Aceitavel(v)
    ensures r == Fail(NumeroInvalido) <==> !v.Num? || v.n.NaN?
    ensures r == Fail(NaoInteiro) <==> v.Num? && v.n.Finite? && v.n.x != v.n.x.Floor as real
    ensures r == Fail(NaoPositivo) <==> v.Num? && IsInteger(v.n) && v.n.x <= 0.0
    ensures r == Fail(AbaixoDoMinimo) <==> v.Num? && v.n == Finite(1.0)
    ensures r.Fail? ==> r.error.NumeroInvalido? || r.error.NaoInteiro? || r.error.NaoPositivo? || r.error.AbaixoDoMinimo?
  {
    if !IsNumber(v) || v.n.NaN? then Fail(NumeroInvalido)
    else if !IsInteger(v.n) then Fail(NaoInteiro)
    else if v.n.x <= 0.0 then Fail(NaoPositivo)
    else if v.n.x < 2.0 then Fail(AbaixoDoMinimo)
    else Pass
  }

  /** The state of the breakdown loop: counts so far and the amount still to dispense. */
  datatype Estado = Estado(resultado: SaqueResponse, restante: int)

  /**
   * One iteration of the loop over the notes: if the remainder covers the
   * note, its count becomes floor(remainder / note) and the remainder drops by
   * that many notes; otherwise nothing changes.
   */
  function Passo(e: Estado, cedula: Cedula): (e': Estado)
    ensures e.restante < cedula ==> e' == e
    ensures e.restante >= 0 ==> 0 <= e'.restante < cedula && e'.restante <= e.restante
    ensures e.restante >= 0 && Quantidade(e.resultado, cedula) == 0 ==>
              e.restante == cedula * Quantidade(e'.resultado, cedula) + e'.restante
    ensures forall c: Cedula :: c != cedula ==> Quantidade(e'.resultado, c) == Quantidade(e.resultado, c)
    ensures e'.resultado.Keys == e.resultado.Keys || e'.resultado.Keys == e.resultado.Keys + {cedula}
  {
    if e.restante >= cedula then
      assert IsCedula(cedula);
      var quantidade := e.restante / cedula;
      Estado(e.resultado[cedula := quantidade], e.restante - quantidade * cedula)
    else
      e
  }

  /**
   * The `for (const cedula of CEDULAS_DISPONIVEIS)` loop, over any note list.
   * A non-negative remainder stays non-negative and ends below every note of
   * the list; one already below every note (in particular a negative one) is
   * left alone, together with the counts.
   */
  function Distribuir(cs: seq<Cedula>, e: Estado): (e': Estado)
    ensures (forall i :: 0 <= i < |cs| ==> e.restante < cs[i]) ==> e' == e
    ensures e.restante >= 0 ==> 0 <= e'.restante <= e.restante
    ensures e.restante >= 0 ==> forall i :: 0 <= i < |cs| ==> e'.restante < cs[i]
    ensures Completa(e.resultado) ==> Completa(e'.resultado)
    decreases |cs|
  {
    if cs == [] then e
    else Distribuir(cs[1..], Passo(e, cs[0]))
  }

  /**
   * `calcularSaque`: start from all six counts at zero, run the loop over the
   * available notes, and fail, with no partial breakdown, if anything is left.
   */
  function CalcularSaque(valor: int): (r: Result<SaqueResponse, SaqueErro>)
    ensures r.Success? ==> Completa(r.value)
    ensures r.Success? && valor >= 0 ==> Total(r.value) == valor
    ensures valor <= 0 ==> r == Success(Zerada)
    ensures r.Failure? ==> valor > 0 && r.error == NaoRepresentavel(valor, 1)
  {
    ZeradaVazia();
    assert Distintas(CedulasDisponiveis) by { CedulasDisponiveisBemFormadas(); }
    DistribuirConserva(CedulasDisponiveis, Estado(Zerada, valor));
    var fim := Distribuir(CedulasDisponiveis, Estado(Zerada, valor));
    assert valor <= 0 ==> fim.restante == valor;
    assert valor >= 0 ==> 0 <= fim.restante < CedulasDisponiveis[5] == 2;
    if fim.restante > 0 then
      assert valor > 0 && fim.restante == 1;
      Failure(NaoRepresentavel(valor, fim.restante))
    else Success(fim.resultado)
  }

  /**
   * Conservation across the loop: when the notes are distinct and their
   * counts start at zero, the amount dispensed plus the remainder never changes.
   */
  lemma {:induction false} DistribuirConserva(cs: seq<Cedula>, e: Estado)
    requires Completa(e.resultado) && Distintas(cs)
    requires forall i :: 0 <= i < |cs| ==> e.resultado[cs[i]] == 0
    ensures Total(Distribuir(cs, e).resultado) + Distribuir(cs, e).restante == Total(e.resultado) + e.restante
    decreases |cs|
  {
    if cs != [] {
      var c := cs[0];
      var e1 := Passo(e, c);
      assert Distintas(CedulasDisponiveis) by { CedulasDisponiveisBemFormadas(); }
      if e.restante >= c {
        SomaAtualiza(e.resultado, CedulasDisponiveis, c, e.restante / c);
      }
      assert Total(e1.resultado) + e1.restante == Total(e.resultado) + e.restante;
      assert Distintas(cs[1..]) by {
        forall i, j | 0 <= i < j < |cs[1..]| ensures cs[1..][i] != cs[1..][j] {
          assert cs[1..][i] == cs[i + 1] && cs[1..][j] == cs[j + 1];
        }
      }
      forall i | 0 <= i < |cs[1..]| ensures e1.resultado[cs[1..][i]] == 0 {
        assert cs[1..][i] == cs[i + 1] != c;
        assert Quantidade(e1.resultado, cs[i + 1]) == Quantidade(e.resultado, cs[i + 1]);
      }
      DistribuirConserva(cs[1..], e1);
    }
  }
}
