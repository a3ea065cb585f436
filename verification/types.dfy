/**
 * The shared vocabulary of the withdrawal service (src/types/Types.ts):
 * banknote values, the fixed list of available notes, the per-note breakdown
 * returned on success and the error envelope returned on failure.
 */
module Types {

  /** Membership in the `Cedula` union `100 | 50 | 20 | 10 | 5 | 2`. */
  predicate IsCedula(n: int) {
    n == 100 || n == 50 || n == 20 || n == 10 || n == 5 || n == 2
  }

  /** A banknote face value. */
  type Cedula = n: int | IsCedula(n) witness 2

  /** `CEDULAS_DISPONIVEIS`: the notes the machine dispenses, largest first. */
  const CedulasDisponiveis: seq<Cedula> := [100, 50, 20, 10, 5, 2]

  /** The smallest amount the validator lets through. */
  const ValorMinimo: int := 2

  predicate Decrescente(cs: seq<int>) {
    forall i, j :: 0 <= i < j < |cs| ==> cs[i] > cs[j]
  }

  predicate Distintas(cs: seq<int>) {
    forall i, j :: 0 <= i < j < |cs| ==> cs[i] != cs[j]
  }

  /** The note list is strictly descending, positive, lists exactly the
      `Cedula` union, and ends in the minimum withdrawal amount. */
  lemma CedulasDisponiveisBemFormadas()
    ensures Decrescente(CedulasDisponiveis)
    ensures Distintas(CedulasDisponiveis)
    ensures forall i :: 0 <= i < |CedulasDisponiveis| ==> CedulasDisponiveis[i] > 0
    ensures forall n: int :: IsCedula(n) <==> n in CedulasDisponiveis
    ensures |CedulasDisponiveis| == 6
    ensures CedulasDisponiveis[|CedulasDisponiveis| - 1] == ValorMinimo
    ensures forall i :: 0 <= i < |CedulasDisponiveis| ==> ValorMinimo <= CedulasDisponiveis[i]
  {
  }

  /** `SaqueResponse`: how many notes of each value are dispensed. */
  type SaqueResponse = map<Cedula, nat>

  /** The breakdown carries a count for every note value (and, by its key type, nothing else). */
  ghost predicate Completa(m: SaqueResponse) {
    forall c: Cedula :: c in m
  }

  /** The count of one note value; an absent key counts as zero. */
  function Quantidade(m: SaqueResponse, c: Cedula): nat {
    if c in m then m[c] else 0
  }

  /** The breakdown before any note is dispensed: every count initialised to zero. */
  const Zerada: SaqueResponse := map[100 := 0, 50 := 0, 20 := 0, 10 := 0, 5 := 0, 2 := 0]

  /** The amount the notes of `cs` add up to. */
  function Soma(m: SaqueResponse, cs: seq<Cedula>): int {
    if cs == [] then 0 else cs[0] * Quantidade(m, cs[0]) + Soma(m, cs[1..])
  }

  /** How many notes of the values in `cs` there are. */
  function Contagem(m: SaqueResponse, cs: seq<Cedula>): int {
    if cs == [] then 0 else Quantidade(m, cs[0]) + Contagem(m, cs[1..])
  }

  /** The amount a breakdown dispenses. */
  function Total(m: SaqueResponse): int {
    Soma(m, CedulasDisponiveis)
  }

  /** How many notes a breakdown dispenses. */
  function NumeroDeCedulas(m: SaqueResponse): int {
    Contagem(m, CedulasDisponiveis)
  }

  /** The amount and note count written out per value. */
  lemma TotalPorCedula(m: SaqueResponse)
    ensures Total(m) == 100 * Quantidade(m, 100) + 50 * Quantidade(m, 50) + 20 * Quantidade(m, 20)
                        + 10 * Quantidade(m, 10) + 5 * Quantidade(m, 5) + 2 * Quantidade(m, 2)
    ensures NumeroDeCedulas(m) == Quantidade(m, 100) + Quantidade(m, 50) + Quantidade(m, 20)
                                  + Quantidade(m, 10) + Quantidade(m, 5) + Quantidade(m, 2)
  {
    var cs := CedulasDisponiveis;
    assert cs[1..] == [50, 20, 10, 5, 2];
    assert cs[1..][1..] == [20, 10, 5, 2];
    assert cs[1..][1..][1..] == [10, 5, 2];
    assert cs[1..][1..][1..][1..] == [5, 2];
    assert cs[1..][1..][1..][1..][1..] == [2];
    assert [2][1..] == [];
    assert Soma(m, [2]) == 2 * Quantidade(m, 2);
    assert Soma(m, [5, 2]) == 5 * Quantidade(m, 5) + Soma(m, [2]);
    assert Soma(m, [10, 5, 2]) == 10 * Quantidade(m, 10) + Soma(m, [5, 2]);
    assert Soma(m, [20, 10, 5, 2]) == 20 * Quantidade(m, 20) + Soma(m, [10, 5, 2]);
    assert Soma(m, [50, 20, 10, 5, 2]) == 50 * Quantidade(m, 50) + Soma(m, [20, 10, 5, 2]);
    assert Contagem(m, [2]) == Quantidade(m, 2);
    assert Contagem(m, [5, 2]) == Quantidade(m, 5) + Contagem(m, [2]);
    assert Contagem(m, [10, 5, 2]) == Quantidade(m, 10) + Contagem(m, [5, 2]);
    assert Contagem(m, [20, 10, 5, 2]) == Quantidade(m, 20) + Contagem(m, [10, 5, 2]);
    assert Contagem(m, [50, 20, 10, 5, 2]) == Quantidade(m, 50) + Contagem(m, [20, 10, 5, 2]);
  }

  /** Two complete breakdowns with the same count for every note are the same breakdown. */
  lemma IgualPorCedula(m1: SaqueResponse, m2: SaqueResponse)
    requires Completa(m1) && Completa(m2)
    requires Quantidade(m1, 100) == Quantidade(m2, 100) && Quantidade(m1, 50) == Quantidade(m2, 50)
    requires Quantidade(m1, 20) == Quantidade(m2, 20) && Quantidade(m1, 10) == Quantidade(m2, 10)
    requires Quantidade(m1, 5) == Quantidade(m2, 5) && Quantidade(m1, 2) == Quantidade(m2, 2)
    ensures m1 == m2
  {
    forall c: Cedula ensures c in m1 && c in m2 && m1[c] == m2[c] {
      assert IsCedula(c);
    }
    assert m1.Keys == m2.Keys;
  }

  /** The zeroed breakdown is complete and dispenses nothing. */
  lemma ZeradaVazia()
    ensures Completa(Zerada)
    ensures forall c: Cedula :: Zerada[c] == 0
    ensures Total(Zerada) == 0
  {
    forall c: Cedula ensures c in Zerada {
      assert IsCedula(c);
    }
    TotalPorCedula(Zerada);
  }

  /** Overwriting the count of `c` changes the amount of a list of distinct
      values by `c` times the change, if `c` is in the list, and not at all otherwise. */
  lemma {:induction false} SomaAtualiza(m: SaqueResponse, cs: seq<Cedula>, c: Cedula, k: nat)
    requires Distintas(cs)
    ensures c in cs ==> Soma(m[c := k], cs) == Soma(m, cs) + c * (k - Quantidade(m, c))
    ensures c !in cs ==> Soma(m[c := k], cs) == Soma(m, cs)
  {
    if cs != [] {
      assert Distintas(cs[1..]) by {
        forall i, j | 0 <= i < j < |cs[1..]| ensures cs[1..][i] != cs[1..][j] {
          assert cs[1..][i] == cs[i + 1] && cs[1..][j] == cs[j + 1];
        }
      }
      SomaAtualiza(m, cs[1..], c, k);
      if cs[0] == c {
        assert c !in cs[1..] by {
          forall j | 0 <= j < |cs[1..]| ensures cs[1..][j] != c {
            assert cs[1..][j] == cs[j + 1];
          }
        }
      } else {
        assert c in cs ==> c in cs[1..];
      }
    }
  }

  /** A message: literal text with interpolated numbers (their decimal
      rendering is not modelled). */
  datatype Part = Lit(text: string) | Interp(n: int)
  type Message = seq<Part>

  predicate Substring(sub: string, s: string) {
    exists k :: 0 <= k <= |s| && sub <= s[k..]
  }

  /** Some literal part of the message contains `sub`. */
  predicate Contains(msg: Message, sub: string) {
    exists i :: 0 <= i < |msg| && msg[i].Lit? && Substring(sub, msg[i].text)
  }

  /** `ErrorResponse`: the JSON body of every failed request. */
  datatype ErrorResponse = ErrorResponse(error: string, message: Message)
}
