/**
 * The request handler `realizarSaque` (src/controllers/SaqueController.ts):
 * validate `valor`, compute the breakdown, answer 200 with it, and turn any
 * thrown `Error` into a 400 whose message is the error's own.
 */
module SaqueController {
  import opened Wrappers
  import opened JsValues
  import opened Types
  import opened SaqueService

  const ErroAoProcessar: string := "Erro ao processar saque"
  const ErroInterno: string := "Erro interno"
  const ErroInesperado: Message := [Lit("Ocorreu um erro inesperado ao processar o saque")]

  /** A JSON response body: the breakdown or an error envelope. */
  datatype Corpo = Cedulas(cedulas: SaqueResponse) | Erro(erro: ErrorResponse)

  /** An HTTP response: status code and body. */
  datatype Resposta = Resposta(status: int, corpo: Corpo)

  /** A value caught by the `catch` block: an `Error` instance, or anything else. */
  datatype Lancado = InstanciaDeErro(mensagem: Message) | OutroValor

  /** The `catch` block: an `Error` becomes a 400 carrying its message verbatim; anything else a 500. */
  function TratarExcecao(x: Lancado): (r: Resposta)
    ensures r.status == 400 <==> x.InstanciaDeErro?
    ensures r.status == 500 <==> x.OutroValor?
    ensures r.corpo.Erro?
    ensures x.InstanciaDeErro? ==> r.corpo.erro == ErrorResponse(ErroAoProcessar, x.mensagem)
  {
    match x
    case InstanciaDeErro(m) => Resposta(400, Erro(ErrorResponse(ErroAoProcessar, m)))
    case OutroValor => Resposta(500, Erro(ErrorResponse(ErroInterno, ErroInesperado)))
  }

  /** The amount as an integer, once the validator has accepted it. */
  function Inteiro(v: JsValue): int
    requires Aceitavel(v)
  {
    v.n.x.Floor
  }

  /**
   * The `try` block: `validarValor` first, and only when it passes,
   * `calcularSaque`; whatever either throws is an `Error` instance.
   */
  function Executar(v: JsValue): (r: Result<SaqueResponse, Lancado>)
    ensures ValidarValor(v).Fail? ==> r == Failure(InstanciaDeErro(Mensagem(ValidarValor(v).error)))
    ensures r.Success? ==> Aceitavel(v) && CalcularSaque(Inteiro(v)) == Success(r.value)
    ensures r.Failure? ==> r.error.InstanciaDeErro?
    ensures Aceitavel(v) ==> (r.Success? <==> CalcularSaque(Inteiro(v)).Success?)
    ensures Aceitavel(v) && CalcularSaque(Inteiro(v)).Failure? ==>
              r == Failure(InstanciaDeErro(Mensagem(CalcularSaque(Inteiro(v)).error)))
  {
    match ValidarValor(v)
    case Fail(e) => Failure(InstanciaDeErro(Mensagem(e)))
    case Pass =>
      match CalcularSaque(Inteiro(v))
      case Success(m) => Success(m)
      case Failure(e) => Failure(InstanciaDeErro(Mensagem(e)))
  }

  /**
   * `realizarSaque`: 200 with the breakdown verbatim when validation and
   * computation succeed, otherwise 400 with the message of the first failing
   * stage; the 500 branch is never taken.
   */
  function RealizarSaque(body: Body): (r: Resposta)
    ensures r.status == 200 || r.status == 400
    ensures r.status == 200 <==> Aceitavel(Valor(body)) && CalcularSaque(Inteiro(Valor(body))).Success?
    ensures r.status == 200 ==> r.corpo == Cedulas(CalcularSaque(Inteiro(Valor(body))).value)
    ensures r.status == 200 ==> Completa(r.corpo.cedulas) && Total(r.corpo.cedulas) == Inteiro(Valor(body))
    ensures ValidarValor(Valor(body)).Fail? ==>
              r == Resposta(400, Erro(ErrorResponse(ErroAoProcessar, Mensagem(ValidarValor(Valor(body)).error))))
    ensures Aceitavel(Valor(body)) && CalcularSaque(Inteiro(Valor(body))).Failure? ==>
              r == Resposta(400, Erro(ErrorResponse(ErroAoProcessar, Mensagem(CalcularSaque(Inteiro(Valor(body))).error))))
  {
    match Executar(Valor(body))
    case Success(m) => Resposta(200, Cedulas(m))
    case Failure(x) => TratarExcecao(x)
  }
}
