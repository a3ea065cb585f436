# desafio-atm: the banknote withdrawal core, in Dafny

This project models the cash-machine API of `desafio-atm`. A `POST /api/saque` request carries an amount `valor`. The
answer is either the number of notes of each value (100, 50, 20, 10, 5 and 2) to dispense, or an error envelope.

The model follows the request through its three stages:

- `ValidationMiddleware.ValidateSaqueRequest` rejects a missing or non-numeric `valor`.
- `SaqueController.RealizarSaque` runs the service's validator `validarValor` (`SaqueService.ValidarValor`) and then its
  breakdown `calcularSaque` (`SaqueService.CalcularSaque`). It turns any thrown `Error` into a 400 response.
- `SaqueRota.Processar` chains the two handlers the way the route registers them.

Thrown errors become values (`Wrappers.Result`, `Wrappers.Outcome`). JavaScript values are an abstract datatype
(`JsValues.JsValue`, `JsValues.JsNumber`). Response bodies are datatypes (`SaqueController.Corpo`, `Types.ErrorResponse`).

The breakdown is greedy, exactly as the code is written. For each note, largest first, it takes
floor(remainder / note) notes and keeps the rest. It fails if anything is left over. `SaqueTeoria` states what this
achieves for the fixed note list:

- For an amount `v >= 0`, the leftover is `v % 5 % 2`.
- So the service rejects exactly the amounts whose last digit is 1, 3, 6 or 8.
- The notes themselves can make every amount except 1 and 3. The greedy is therefore sound but not complete: it
  rejects 6 (= 2+2+2) and 73 (= 50+10+5+2+2+2+2).
- Whenever it succeeds, no other breakdown of the same amount uses fewer notes.

The doc comment of `calcularSaque` (src/services/SaqueService.ts:5-7) and the route description
(src/routes/Router.ts:38) promise the minimum number of notes. The test names at src/test/SaqueService.test.ts:56,60
call 1 and 3 odd values that cannot be represented. The greedy nevertheless accepts the odd amounts 5, 7 and 9, and
rejects the representable amounts 6 and 73. This model follows the code.

`calcularSaque` called directly on a negative integer dispenses no note and returns the all-zero breakdown
(`SaqueService.CalcularSaque`, third ensures). The controller never does this, because the validator rejects such
amounts first.

## Model

| member | source | states |
|---|---|---|
| `Types.CedulasDisponiveisBemFormadas` | src/types/Types.ts:29-37 | The note list is exactly 100, 50, 20, 10, 5, 2: strictly descending (so distinct), all positive, the same values as the `Cedula` union, and its last note is the minimum withdrawal 2 |
| `Types.ZeradaVazia` | src/services/SaqueService.ts:14-21 | The initial breakdown has all six keys, each count is 0, and it dispenses nothing |
| `SaqueService.ValidarValor` | src/services/SaqueService.ts:51-67 | Accepts exactly the integers >= 2. Each message has its own characterisation: not a number or NaN; finite but fractional; an integer <= 0; exactly 1. The first failing check decides |
| `SaqueService.Mensagem` | src/services/SaqueService.ts:34-65 | Each validator error is thrown with one fixed text. The breakdown's error has five parts, with the amount second and the leftover fourth |
| `SaqueService.MensagemInjetiva` | src/services/SaqueService.ts:34-65 | Different errors are thrown with different messages, so a message identifies the error that raised it |
| `SaqueService.Passo` | src/services/SaqueService.ts:26-31 | A note that does not fit changes nothing. From a zero count and a remainder >= 0, the new count and remainder are the quotient and remainder by the note (remainder = note × count + rest, 0 <= rest < note). The rest never grows, and other notes keep their counts |
| `SaqueService.Distribuir` | src/services/SaqueService.ts:25-32 | The loop keeps a non-negative remainder non-negative and non-increasing, and ends below every note it visited. A remainder already below all notes, such as a negative one, leaves the state untouched. Completeness of the breakdown is preserved |
| `SaqueService.DistribuirConserva` | src/services/SaqueService.ts:23-32 | With distinct notes whose counts start at 0, the amount dispensed plus the remainder is the same before and after the loop |
| `SaqueService.CalcularSaque` | src/services/SaqueService.ts:13-43 | A success has all six keys, and for `valor >= 0` its notes add up to `valor`. Amounts <= 0 give the all-zero breakdown. A failure happens only for `valor > 0`, carries no breakdown, and names `valor` with leftover 1 |
| `SaqueTeoria.GulosoFechado` | src/services/SaqueService.ts:23-32 | For `v >= 0` the loop ends with counts v/100, v%100/50, v%50/20, v%50%20/10, v%10/5, v%5/2 and leftover v%5%2 |
| `SaqueTeoria.CalcularSaqueResto` | src/services/SaqueService.ts:34-42 | For `v >= 0` the service fails exactly when v%5%2 = 1, and otherwise returns the closed-form breakdown |
| `SaqueTeoria.CalcularSaqueFalhaSse` | src/services/SaqueService.ts:34-40 | The service fails iff `v >= 0` and the last digit of `v` is 1, 3, 6 or 8 |
| `SaqueTeoria.RepresentavelSse` | src/types/Types.ts:37 | Some complete breakdown over the note list makes `v` iff `v >= 0` and `v` is neither 1 nor 3 |
| `SaqueTeoria.CalcularSaqueSolido` | src/services/SaqueService.ts:23-42 | Soundness: every accepted amount `v >= 0` can be made from the notes |
| `SaqueTeoria.CalcularSaqueIncompleto` | src/services/SaqueService.ts:25-40 | Every rejected amount other than 1 and 3 could have been made from the notes |
| `SaqueTeoria.ContraExemplosDeCompletude` | src/test/SaqueService.test.ts:50-54 | 6 and 73 are rejected although both can be made from the notes |
| `SaqueTeoria.MinimoSeis` | src/services/SaqueService.ts:5-7 | Any six note counts that make an amount with v%5%2 = 0 use at least as many notes as the closed form |
| `SaqueTeoria.CalcularSaqueMinimo` | src/services/SaqueService.ts:5-7 | When the service succeeds, every complete breakdown of the same amount uses at least as many notes as the one returned |
| `ValidationMiddleware.ValidateSaqueRequest` | src/middleware/ValidationMiddleware.ts:8-34 | Calls `next` iff `valor` is a number, including 0, negatives, fractions and NaN. Otherwise answers 400 "Validação falhou": the "obrigatório" message iff `valor` is undefined or null (checked first), and the "deve ser um número" message iff it is a string, boolean or object |
| `SaqueController.TratarExcecao` | src/controllers/SaqueController.ts:31-45 | A thrown `Error` gives 400 "Erro ao processar saque" carrying its message verbatim. Any other thrown value gives 500 |
| `SaqueController.Executar` | src/controllers/SaqueController.ts:23-28 | A validation failure is thrown with the validator's message, and `calcularSaque` is not consulted. For a validated amount, the block succeeds iff `calcularSaque` does. A success is exactly its breakdown, and a failure throws its message. Every thrown value is an `Error` |
| `SaqueController.RealizarSaque` | src/controllers/SaqueController.ts:22-46 | Status is always 200 or 400, never 500. 200 iff the amount is valid and the breakdown succeeds, with the breakdown as the body verbatim, summing to the amount. Otherwise 400 with the message of the first failing stage |
| `SaqueRota.Processar` | src/routes/Router.ts:113 | A non-number `valor` is answered 400 "Validação falhou" by the middleware: the "obrigatório" message if it is undefined or null, otherwise the "deve ser um número" message. A number reaches the controller with the same body. Status is 200 or 400 |
| `SaqueRota.ProcessarSucessoSse` | src/routes/Router.ts:113 | End to end, a request succeeds iff `valor` is an integer >= 2 whose last digit is not 1, 3, 6 or 8. The breakdown returned then uses no more notes than any other |
| `Cenarios.CalcularSaque380` | src/test/SaqueService.test.ts:11-22 | 380 gives {100: 3, 50: 1, 20: 1, 10: 1, 5: 0, 2: 0} |
| `Cenarios.CalcularSaque100` | src/test/SaqueService.test.ts:24-35 | 100 gives one 100 and no other note |
| `Cenarios.CalcularSaque2` | src/test/SaqueService.test.ts:37-48 | 2 gives one 2 and no other note |
| `Cenarios.CalcularSaque73` | src/test/SaqueService.test.ts:50-54 | 73 is rejected with amount 73 and leftover 1 |
| `Cenarios.Mensagem73` | src/test/SaqueService.test.ts:50-54 | The rejection message for 73 starts with "Não é possível sacar o valor de R$ " followed by 73 |
| `Cenarios.CalcularSaque1` | src/test/SaqueService.test.ts:56-58 | 1 is rejected |
| `Cenarios.CalcularSaque3` | src/test/SaqueService.test.ts:60-62 | 3 is rejected |
| `Cenarios.CalcularSaque1000` | src/test/SaqueService.test.ts:64-75 | 1000 gives ten 100s and no other note |
| `Cenarios.CalcularSaque192` | src/test/SaqueService.test.ts:77-88 | 192 gives {100: 1, 50: 1, 20: 2, 10: 0, 5: 0, 2: 1} |
| `Cenarios.ValidarValorExemplos` | src/test/SaqueService.test.ts:91-129 | 100 and 2 pass; 0 and -100 are "maior que zero"; 100.5 is "inteiro"; NaN is "número válido"; 1 is "mínimo" |
| `Cenarios.Rota380` | src/test/Router.test.ts:12-26 | The request with 380 is answered 200 with {3, 1, 1, 1, 0, 0} |
| `Cenarios.Rota2` | src/test/Router.test.ts:28-42 | The request with 2 is answered 200 with a single 2 |
| `Cenarios.RotaSemValor` | src/test/Router.test.ts:44-52 | The empty body is answered 400 with a message containing "obrigatório" |
| `Cenarios.RotaValorNaoNumerico` | src/test/Router.test.ts:54-61 | `valor: "abc"` is answered 400 with an error body |
| `Cenarios.RotaValorZero` | src/test/Router.test.ts:63-71 | 0 is answered 400 with a message containing "maior que zero" |
| `Cenarios.RotaValorNegativo` | src/test/Router.test.ts:73-80 | -50 is answered 400 with an error body |
| `Cenarios.RotaValorDecimal` | src/test/Router.test.ts:82-90 | 100.5 is answered 400 with a message containing "inteiro" |
| `Cenarios.RotaRejeitada` | src/controllers/SaqueController.ts:22-45 | Any integer request of at least 2 that leaves 1 after the fives and twos is answered 400 "Erro ao processar saque" with the breakdown's message for that amount and leftover 1 |
| `Cenarios.MensagemNaoRepresentavel` | src/services/SaqueService.ts:35-38 | For every amount and leftover, the breakdown's message contains "Não é possível sacar" |
| `Cenarios.RotaValor73` | src/test/Router.test.ts:92-100 | 73 is answered 400 with a message containing "Não é possível sacar" |
| `Cenarios.Rota1000` | src/test/Router.test.ts:102-116 | 1000 is answered 200 with ten 100s |

## Left out

- `healthCheck` (src/controllers/SaqueController.ts:52-58): a constant body plus the wall-clock time.
- Express wiring is not modelled: application setup, CORS options, Swagger documentation, the 404 fallback and
  listening on a port (src/App.ts, src/Server.ts, src/config/). The route is reduced to the composition in
  `SaqueRota.Processar`.
- The asynchronous handlers, and the Express `req`/`res` objects, are replaced by pure functions from the body to a
  (status, body) pair.
- IEEE-754 details of JavaScript numbers are not modelled: Infinity, -0, rounding and precision. A number is NaN or a
  finite real. An integer amount is passed to `calcularSaque` as an unbounded `int`.
- `calcularSaque` on a fractional number is not modelled, because the validator rejects fractions before the call.
  The model's `SaqueService.CalcularSaque` takes an integer.
- Decimal rendering of the numbers interpolated into the rejection message is not modelled. The message is a sequence
  of literal parts and `Interp` parts carrying the amount and the leftover.
- A missing request body (`req.body` undefined) is not modelled: the JSON body parser always yields an object.
- SaqueTeoria.CalcularSaqueMinimo: minimality is proved only for the amounts the service accepts. The doc comment at
  src/services/SaqueService.ts:5-7 promises a minimal, optimal distribution for every amount. For 6 or 73 the service
  returns no breakdown at all, although one exists (`SaqueTeoria.ContraExemplosDeCompletude`).
