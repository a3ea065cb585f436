/**
 * The `POST /api/saque` route (src/routes/Router.ts): the middleware runs
 * first and the controller only when it passes the request on.
 */
module SaqueRota {
  import opened JsValues
  import opened Types
  import opened SaqueService
  import opened SaqueTeoria
  import opened ValidationMiddleware
  import opened SaqueController

  /** The response to one withdrawal request. */
  function Processar(body: Body): (r: Resposta)
    ensures r.status == 200 || r.status == 400
    ensures !IsNumber(Valor(body)) ==>
              r == Resposta(400, Erro(ErrorResponse(ValidacaoFalhou,
                     if Valor(body).Undefined? || Valor(body).Null? then CampoObrigatorio else CampoNaoNumerico)))
    ensures IsNumber(Valor(body)) ==> r == RealizarSaque(body)
  {
    match ValidateSaqueRequest(body)
    case Responde(status, erro) => Resposta(status, Erro(erro))
    case Segue => RealizarSaque(body)
  }

  /**
   * End to end, a request succeeds exactly when `valor` is an integer of at
   * least 2 whose last digit is not 1, 3, 6 or 8; the body then makes up the
   * amount with no more notes than any other breakdown.
   */
  lemma ProcessarSucessoSse(body: Body)
    ensures Processar(body).status == 200 <==>
              Aceitavel(Valor(body))
              && var n := Inteiro(Valor(body));
                 n % 10 != 1 && n % 10 != 3 && n % 10 != 6 && n % 10 != 8
    ensures Processar(body).status == 200 ==>
              forall m: SaqueResponse :: Completa(m) && Total(m) == Inteiro(Valor(body))
                ==> NumeroDeCedulas(Processar(body).corpo.cedulas) <= NumeroDeCedulas(m)
  {
    var v := Valor(body);
    if Aceitavel(v) {
      CalcularSaqueFalhaSse(Inteiro(v));
      if Processar(body).status == 200 {
        forall m: SaqueResponse | Completa(m) && Total(m) == Inteiro(v)
          ensures NumeroDeCedulas(Processar(body).corpo.cedulas) <= NumeroDeCedulas(m)
        {
          CalcularSaqueMinimo(Inteiro(v), m);
        }
      }
    }
  }
}
