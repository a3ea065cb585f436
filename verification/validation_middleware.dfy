/**
 * The request middleware `validateSaqueRequest`
 * (src/middleware/ValidationMiddleware.ts): it answers 400 for a missing or
 * non-numeric `valor`, and otherwise hands the request on unchanged.
 */
module ValidationMiddleware {
  import opened JsValues
  import opened Types

  const ValidacaoFalhou: string := "Validação falhou"
  const CampoObrigatorio: Message := [Lit("O campo \"valor\" é obrigatório")]
  const CampoNaoNumerico: Message := [Lit("O campo \"valor\" deve ser um número")]

  /** What the middleware does: answer the request, or call `next()` — exactly one of the two. */
  datatype Decisao = Responde(status: int, corpo: ErrorResponse) | Segue

  /**
   * An absent or null `valor` is reported as missing, and this check comes
   * first (`typeof null` is not `'number'` either); any other non-number is
   * reported as such; every number, including 0, negatives, fractions and
   * NaN, passes.
   */
  function ValidateSaqueRequest(body: Body): (d: Decisao)
    ensures d.Segue? <==> IsNumber(Valor(body))
    ensures d.Responde? ==> d.status == 400 && d.corpo.error == ValidacaoFalhou
    ensures d.Responde? && d.corpo.message == CampoObrigatorio <==> Valor(body).Undefined? || Valor(body).Null?
    ensures d.Responde? && d.corpo.message == CampoNaoNumerico <==> Valor(body).Str? || Valor(body).Bool? || Valor(body).Obj?
  {
    var valor := Valor(body);
    if valor == Undefined || valor == Null then
      Responde(400, ErrorResponse(ValidacaoFalhou, CampoObrigatorio))
    else if !IsNumber(valor) then
      Responde(400, ErrorResponse(ValidacaoFalhou, CampoNaoNumerico))
    else
      Segue
  }
}
