/**
 * The JavaScript values that can reach the withdrawal endpoint, kept abstract:
 * a JSON request body yields `undefined` (field absent), `null`, numbers,
 * strings, booleans, or compound values.
 */
module JsValues {

  /** A JavaScript `number`, without the IEEE-754 details: NaN or a finite real. */
  datatype JsNumber = NaN | Finite(x: real)

  /** The value of one field of a request body. */
  datatype JsValue = Undefined | Null | Num(n: JsNumber) | Str(s: string) | Bool(b: bool) | Obj

  /** `typeof v === 'number'` */
  predicate IsNumber(v: JsValue) {
    v.Num?
  }

  /** `Number.isInteger(n)`: finite and without fractional part. */
  predicate IsInteger(n: JsNumber) {
    n.Finite? && n.x == n.x.Floor as real
  }

  /** A parsed request body: the object `req.body`. */
  datatype Body = Body(fields: map<string, JsValue>)

  /** Destructuring `const { valor } = req.body`: an absent key reads as `undefined`. */
  function Valor(body: Body): JsValue {
    if "valor" in body.fields then body.fields["valor"] else Undefined
  }
}
