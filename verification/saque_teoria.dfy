/**
 * What the greedy breakdown of `calcularSaque` does and does not achieve for
 * the fixed note list 100, 50, 20, 10, 5, 2: its closed form, the exact set of
 * amounts it rejects, soundness, incompleteness (it rejects amounts the notes
 * can make), and minimality of the note count whenever it succeeds.
 */
module SaqueTeoria {
  import opened Wrappers
  import opened Types
  import opened SaqueService

  /** Division by a note value is determined by quotient and remainder. */
  lemma DivisaoUnica(v: int, k: Cedula, q: int, r: int)
    requires v == k * q + r && 0 <= r < k
    ensures v / k == q && v % k == r
  {
    assert IsCedula(k);
    if k == 100 {
    } else if k == 50 {
    } else if k == 20 {
    } else if k == 10 {
    } else if k == 5 {
    } else {
    }
  }

  /** The breakdown the greedy loop produces, note by note, in closed form. */
  function Esperado(v: nat): SaqueResponse {
    Zerada[100 := v / 100][50 := v % 100 / 50][20 := v % 50 / 20]
          [10 := v % 50 % 20 / 10][5 := v % 10 / 5][2 := v % 5 / 2]
  }

  /** The number of notes of the closed form. */
  lemma ContagemEsperada(v: nat)
    ensures NumeroDeCedulas(Esperado(v))
            == v / 100 + v % 100 / 50 + v % 50 / 20 + v % 50 % 20 / 10 + v % 10 / 5 + v % 5 / 2
  {
    var g := Esperado(v);
    TotalPorCedula(g);
    assert Quantidade(g, 100) == v / 100;
    assert Quantidade(g, 50) == v % 100 / 50;
    assert Quantidade(g, 20) == v % 50 / 20;
    assert Quantidade(g, 10) == v % 50 % 20 / 10;
    assert Quantidade(g, 5) == v % 10 / 5;
    assert Quantidade(g, 2) == v % 5 / 2;
  }

  /** Taking the remainder by a note and then by a divisor of it is taking the remainder by the divisor. */
  lemma RestosEncadeados(v: nat)
    ensures v % 100 % 50 == v % 50
    ensures v % 50 % 20 % 10 == v % 10
    ensures v % 10 % 5 == v % 5
  {
    DivisaoUnica(v, 50, 2 * (v / 100) + v % 100 / 50, v % 100 % 50);
    DivisaoUnica(v % 50, 10, 2 * (v % 50 / 20) + v % 50 % 20 / 10, v % 50 % 20 % 10);
    DivisaoUnica(v, 10, 5 * (v / 50) + v % 50 / 10, v % 50 % 10);
    DivisaoUnica(v, 5, 2 * (v / 10) + v % 10 / 5, v % 10 % 5);
  }

  /** A step from a zero count: the count is the quotient and the remainder the rest. */
  lemma PassoDeZero(e: Estado, c: Cedula)
    requires e.restante >= 0 && c in e.resultado && e.resultado[c] == 0
    ensures Passo(e, c) == Estado(e.resultado[c := e.restante / c], e.restante % c)
  {
    var e' := Passo(e, c);
    assert IsCedula(c);
    DivisaoUnica(e.restante, c, Quantidade(e'.resultado, c), e'.restante);
    if e.restante < c {
      assert e.resultado[c := 0] == e.resultado;
    } else {
      assert e'.resultado == e.resultado[c := e.restante / c];
    }
  }

  /**
   * The loop over the six notes, started from the zeroed breakdown on a
   * non-negative amount, ends in the closed form, with leftover `v % 5 % 2`.
   */
  lemma {:induction false} GulosoFechado(v: nat)
    ensures Distribuir(CedulasDisponiveis, Estado(Zerada, v)) == Estado(Esperado(v), v % 5 % 2)
  {
    var cs := CedulasDisponiveis;
    assert cs[1..] == [50, 20, 10, 5, 2];
    assert cs[1..][1..] == [20, 10, 5, 2];
    assert cs[1..][1..][1..] == [10, 5, 2];
    assert cs[1..][1..][1..][1..] == [5, 2];
    assert cs[1..][1..][1..][1..][1..] == [2];
    assert [2][1..] == [];
    RestosEncadeados(v);
    ZeradaVazia();
    var e0 := Estado(Zerada, v);
    PassoDeZero(e0, 100);
    var e1 := Estado(e0.resultado[100 := v / 100], v % 100);
    PassoDeZero(e1, 50);
    var e2 := Estado(e1.resultado[50 := v % 100 / 50], v % 50);
    PassoDeZero(e2, 20);
    var e3 := Estado(e2.resultado[20 := v % 50 / 20], v % 50 % 20);
    PassoDeZero(e3, 10);
    var e4 := Estado(e3.resultado[10 := v % 50 % 20 / 10], v % 10);
    PassoDeZero(e4, 5);
    var e5 := Estado(e4.resultado[5 := v % 10 / 5], v % 5);
    PassoDeZero(e5, 2);
    var e6 := Estado(e5.resultado[2 := v % 5 / 2], v % 5 % 2);
    calc {
      Distribuir(cs, e0);
      Distribuir([50, 20, 10, 5, 2], e1);
      Distribuir([20, 10, 5, 2], e2);
      Distribuir([10, 5, 2], e3);
      Distribuir([5, 2], e4);
      Distribuir([2], e5);
      Distribuir([], e6);
      e6;
    }
  }

  /** The amounts the greedy breakdown rejects are exactly those ending in 1, 3, 6 or 8. */
  lemma CalcularSaqueFalhaSse(v: int)
    ensures CalcularSaque(v).Failure? <==> v >= 0 && (v % 10 == 1 || v % 10 == 3 || v % 10 == 6 || v % 10 == 8)
  {
    if v >= 0 {
      CalcularSaqueResto(v);
      UltimoDigito(v);
    }
  }

  /** A remainder of one after the fives and twos means a last digit of 1, 3, 6 or 8. */
  lemma UltimoDigito(v: nat)
    ensures v % 5 % 2 == 1 <==> (v % 10 == 1 || v % 10 == 3 || v % 10 == 6 || v % 10 == 8)
  {
    var d := v % 10;
    if d < 5 {
      DivisaoUnica(v, 5, 2 * (v / 10), d);
    } else {
      DivisaoUnica(v, 5, 2 * (v / 10) + 1, d - 5);
    }
  }

  /** For a non-negative amount, failure is a leftover of one after the notes of five. */
  lemma CalcularSaqueResto(v: nat)
    ensures CalcularSaque(v).Failure? <==> v % 5 % 2 == 1
    ensures CalcularSaque(v).Success? ==> CalcularSaque(v).value == Esperado(v)
  {
    GulosoFechado(v);
  }

  /** A non-negative amount with a leftover after the fives and twos is rejected. */
  lemma CalcularSaqueRejeitaResto(v: nat)
    requires v % 5 % 2 == 1
    ensures CalcularSaque(v) == Failure(NaoRepresentavel(v, 1))
  {
    CalcularSaqueResto(v);
  }

  /** A non-negative amount without such a leftover is dispensed in the closed form. */
  lemma CalcularSaqueAceitaResto(v: nat)
    requires v % 5 % 2 == 0
    ensures CalcularSaque(v) == Success(Esperado(v))
  {
    CalcularSaqueResto(v);
  }

  /** Some breakdown dispenses exactly `v`. */
  ghost predicate Representavel(v: int) {
    exists m: SaqueResponse :: Completa(m) && Total(m) == v
  }

  /** A complete breakdown built from the fives and twos alone. */
  function SoCincoEDois(cinco: nat, dois: nat): (m: SaqueResponse)
    ensures Completa(m)
    ensures Total(m) == 5 * cinco + 2 * dois
  {
    ZeradaVazia();
    var m := Zerada[5 := cinco][2 := dois];
    TotalPorCedula(m);
    m
  }

  /** The notes can make every non-negative amount except 1 and 3. */
  lemma RepresentavelSse(v: int)
    ensures Representavel(v) <==> v >= 0 && v != 1 && v != 3
  {
    if Representavel(v) {
      var m :| Completa(m) && Total(m) == v;
      TotalPorCedula(m);
    }
    if v >= 0 && v != 1 && v != 3 {
      var m := if v % 2 == 0 then SoCincoEDois(0, v / 2) else SoCincoEDois(1, (v - 5) / 2);
      assert Completa(m) && Total(m) == v;
    }
  }

  /** Soundness: an accepted amount is made exactly by the returned notes. */
  lemma CalcularSaqueSolido(v: int)
    ensures v >= 0 && CalcularSaque(v).Success? ==> Representavel(v)
  {
    if v >= 0 && CalcularSaque(v).Success? {
      var m := CalcularSaque(v).value;
      assert Completa(m) && Total(m) == v;
    }
  }

  /**
   * Incompleteness: apart from 1 and 3, every amount the greedy breakdown
   * rejects could have been made from the notes.
   */
  lemma CalcularSaqueIncompleto(v: int)
    ensures CalcularSaque(v).Failure? ==> (Representavel(v) <==> v != 1 && v != 3)
  {
    CalcularSaqueFalhaSse(v);
    RepresentavelSse(v);
  }

  /** The two rejections that show it: 6 = 2 + 2 + 2 and 73 = 50 + 10 + 5 + 2 + 2 + 2 + 2. */
  lemma ContraExemplosDeCompletude()
    ensures CalcularSaque(6).Failure? && Representavel(6)
    ensures CalcularSaque(73).Failure? && Representavel(73)
  {
    CalcularSaqueFalhaSse(6);
    CalcularSaqueFalhaSse(73);
    RepresentavelSse(6);
    RepresentavelSse(73);
  }

  /**
   * No decomposition of an amount the greedy accepts uses fewer notes than
   * the closed form. Each non-minimal shape is rewritten into one with fewer
   * notes and the same amount; the shape with none of the rewrites available
   * is the closed form itself.
   */
  lemma {:induction false} MinimoSeis(a: nat, b: nat, c: nat, d: nat, e: nat, f: nat, v: int)
    requires 100 * a + 50 * b + 20 * c + 10 * d + 5 * e + 2 * f == v
    requires v % 5 % 2 == 0
    ensures a + b + c + d + e + f >= v / 100 + v % 100 / 50 + v % 50 / 20 + v % 50 % 20 / 10 + v % 10 / 5 + v % 5 / 2
    decreases a + b + c + d + e + f
  {
    if f >= 5 {
      MinimoSeis(a, b, c, d + 1, e, f - 5, v);
    } else if e >= 2 {
      MinimoSeis(a, b, c, d + 1, e - 2, f, v);
    } else if d >= 2 {
      MinimoSeis(a, b, c + 1, d - 2, e, f, v);
    } else if c >= 2 && d >= 1 {
      MinimoSeis(a, b + 1, c - 2, d - 1, e, f, v);
    } else if c >= 3 {
      MinimoSeis(a, b + 1, c - 3, d + 1, e, f, v);
    } else if b >= 2 {
      MinimoSeis(a + 1, b - 2, c, d, e, f, v);
    } else {
      var l := 5 * e + 2 * f;
      DivisaoUnica(v, 5, 20 * a + 10 * b + 4 * c + 2 * d + e + (2 * f) / 5, (2 * f) % 5);
      assert f <= 2;
      DivisaoUnica(v, 100, a, 50 * b + 20 * c + 10 * d + l);
      DivisaoUnica(v % 100, 50, b, 20 * c + 10 * d + l);
      DivisaoUnica(v, 50, 2 * a + b, 20 * c + 10 * d + l);
      DivisaoUnica(v % 50, 20, c, 10 * d + l);
      DivisaoUnica(v % 50 % 20, 10, d, l);
      DivisaoUnica(v, 10, 10 * a + 5 * b + 2 * c + d, l);
      DivisaoUnica(v % 10, 5, e, 2 * f);
      DivisaoUnica(v, 5, 20 * a + 10 * b + 4 * c + 2 * d + e, 2 * f);
      DivisaoUnica(v % 5, 2, f, 0);
    }
  }

  /**
   * Minimality where the greedy succeeds: every complete breakdown of the same
   * amount dispenses at least as many notes as the one `calcularSaque` returns.
   */
  lemma CalcularSaqueMinimo(v: int, m: SaqueResponse)
    ensures CalcularSaque(v).Success? && Completa(m) && Total(m) == v ==>
              NumeroDeCedulas(CalcularSaque(v).value) <= NumeroDeCedulas(m)
  {
    if CalcularSaque(v).Success? && Completa(m) && Total(m) == v {
      TotalPorCedula(m);
      assert v >= 0;
      CalcularSaqueResto(v);
      ContagemEsperada(v);
      MinimoSeis(Quantidade(m, 100), Quantidade(m, 50), Quantidade(m, 20),
                 Quantidade(m, 10), Quantidade(m, 5), Quantidade(m, 2), v);
    }
  }
}
