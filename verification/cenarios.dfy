/**
 * The concrete expectations of the repository's test suites
 * (src/test/SaqueService.test.ts and src/test/Router.test.ts), stated about
 * the model.
 */
module Cenarios {
  import opened Wrappers
  import opened JsValues
  import opened Types
  import opened SaqueService
  import opened SaqueTeoria
  import opened SaqueController
  import opened SaqueRota

  /** A breakdown written as its six counts, largest note first. */
  function Notas(n100: nat, n50: nat, n20: nat, n10: nat, n5: nat, n2: nat): SaqueResponse {
    map[100 := n100, 50 := n50, 20 := n20, 10 := n10, 5 := n5, 2 := n2]
  }

  /** The closed form of the greedy breakdown on `v` has the six given counts. */
  lemma EsperadoIgual(v: nat, n100: nat, n50: nat, n20: nat, n10: nat, n5: nat, n2: nat)
    requires v / 100 == n100 && v % 100 / 50 == n50 && v % 50 / 20 == n20
    requires v % 50 % 20 / 10 == n10 && v % 10 / 5 == n5 && v % 5 / 2 == n2
    ensures Esperado(v) == Notas(n100, n50, n20, n10, n5, n2)
  {
    var m := Notas(n100, n50, n20, n10, n5, n2);
    ZeradaVazia();
    forall c: Cedula ensures c in m {
      assert IsCedula(c);
    }
    IgualPorCedula(Esperado(v), m);
  }

  /** The greedy breakdown of `v`, when `v` leaves nothing after the fives and twos, has the given counts. */
  lemma CalcularSaqueDa(v: nat, n100: nat, n50: nat, n20: nat, n10: nat, n5: nat, n2: nat)
    requires v % 5 % 2 == 0
    requires v / 100 == n100 && v % 100 / 50 == n50 && v % 50 / 20 == n20
    requires v % 50 % 20 / 10 == n10 && v % 10 / 5 == n5 && v % 5 / 2 == n2
    ensures CalcularSaque(v) == Success(Notas(n100, n50, n20, n10, n5, n2))
  {
    CalcularSaqueAceitaResto(v);
    EsperadoIgual(v, n100, n50, n20, n10, n5, n2);
  }

  /** A request body whose `valor` is the number `x`. */
  function Pedido(x: real): Body {
    Body(map["valor" := Num(Finite(x))])
  }

  lemma CalcularSaque380()
    ensures CalcularSaque(380) == Success(Notas(3, 1, 1, 1, 0, 0))
  {
    CalcularSaqueDa(380, 3, 1, 1, 1, 0, 0);
  }

  lemma CalcularSaque100()
    ensures CalcularSaque(100) == Success(Notas(1, 0, 0, 0, 0, 0))
  {
    CalcularSaqueDa(100, 1, 0, 0, 0, 0, 0);
  }

  lemma CalcularSaque2()
    ensures CalcularSaque(2) == Success(Notas(0, 0, 0, 0, 0, 1))
  {
    CalcularSaqueDa(2, 0, 0, 0, 0, 0, 1);
  }

  lemma CalcularSaque1000()
    ensures CalcularSaque(1000) == Success(Notas(10, 0, 0, 0, 0, 0))
  {
    CalcularSaqueDa(1000, 10, 0, 0, 0, 0, 0);
  }

  lemma CalcularSaque192()
    ensures CalcularSaque(192) == Success(Notas(1, 1, 2, 0, 0, 1))
  {
    CalcularSaqueDa(192, 1, 1, 2, 0, 0, 1);
  }

  /** 73 is rejected, with a message that opens with the amount. */
  lemma CalcularSaque73()
    ensures CalcularSaque(73) == Failure(NaoRepresentavel(73, 1))
  {
    CalcularSaqueRejeitaResto(73);
  }

  lemma Mensagem73()
    ensures Mensagem(NaoRepresentavel(73, 1))[..2] == [Lit("Não é possível sacar o valor de R$ "), Interp(73)]
  {
  }

  /** The odd amounts below the minimum are rejected too. */
  lemma CalcularSaque1()
    ensures CalcularSaque(1) == Failure(NaoRepresentavel(1, 1))
  {
    CalcularSaqueRejeitaResto(1);
  }

  lemma CalcularSaque3()
    ensures CalcularSaque(3) == Failure(NaoRepresentavel(3, 1))
  {
    CalcularSaqueRejeitaResto(3);
  }

  lemma ValidarValorExemplos()
    ensures ValidarValor(Num(Finite(100.0))) == Pass
    ensures ValidarValor(Num(Finite(2.0))) == Pass
    ensures ValidarValor(Num(Finite(0.0))) == Fail(NaoPositivo)
    ensures ValidarValor(Num(Finite(-100.0))) == Fail(NaoPositivo)
    ensures ValidarValor(Num(Finite(100.5))) == Fail(NaoInteiro)
    ensures ValidarValor(Num(NaN)) == Fail(NumeroInvalido)
    ensures ValidarValor(Num(Finite(1.0))) == Fail(AbaixoDoMinimo)
  {
  }

  /** A request the validator accepts reaches `calcularSaque` with its integer value. */
  lemma PedidoInteiro(x: real, n: int)
    requires n >= 2 && x == n as real
    ensures Processar(Pedido(x)) == RealizarSaque(Pedido(x))
    ensures Aceitavel(Valor(Pedido(x))) && Inteiro(Valor(Pedido(x))) == n
  {
  }

  lemma Rota380()
    ensures Processar(Pedido(380.0)) == Resposta(200, Cedulas(Notas(3, 1, 1, 1, 0, 0)))
  {
    PedidoInteiro(380.0, 380);
    CalcularSaque380();
  }

  lemma Rota2()
    ensures Processar(Pedido(2.0)) == Resposta(200, Cedulas(Notas(0, 0, 0, 0, 0, 1)))
  {
    PedidoInteiro(2.0, 2);
    CalcularSaque2();
  }

  lemma Rota1000()
    ensures Processar(Pedido(1000.0)) == Resposta(200, Cedulas(Notas(10, 0, 0, 0, 0, 0)))
  {
    PedidoInteiro(1000.0, 1000);
    CalcularSaque1000();
  }

  lemma RotaSemValor()
    ensures Processar(Body(map[])).status == 400
    ensures Contains(Processar(Body(map[])).corpo.erro.message, "obrigatório")
  {
    var s := "O campo \"valor\" é obrigatório";
    assert Processar(Body(map[])).corpo.erro.message == [Lit(s)];
    assert Substring("obrigatório", s) by {
      assert "obrigatório" <= s[18..];
    }
  }

  lemma RotaValorNaoNumerico()
    ensures Processar(Body(map["valor" := Str("abc")])).status == 400
    ensures Processar(Body(map["valor" := Str("abc")])).corpo.Erro?
  {
  }

  lemma RotaValorZero()
    ensures Processar(Pedido(0.0)).status == 400
    ensures Contains(Processar(Pedido(0.0)).corpo.erro.message, "maior que zero")
  {
    var s := "O valor deve ser maior que zero";
    var msg := Processar(Pedido(0.0)).corpo.erro.message;
    assert msg == [Lit(s)];
    assert Substring("maior que zero", msg[0].text) by {
      assert "maior que zero" <= s[17..];
    }
  }

  lemma RotaValorNegativo()
    ensures Processar(Pedido(-50.0)).status == 400
    ensures Processar(Pedido(-50.0)).corpo.Erro?
  {
  }

  lemma RotaValorDecimal()
    ensures Processar(Pedido(100.5)).status == 400
    ensures Contains(Processar(Pedido(100.5)).corpo.erro.message, "inteiro")
  {
    var s := "O valor deve ser um número inteiro";
    var msg := Processar(Pedido(100.5)).corpo.erro.message;
    assert msg == [Lit(s)];
    assert Substring("inteiro", msg[0].text) by {
      assert "inteiro" <= s[27..];
    }
  }

  /** A validated amount the greedy breakdown rejects is answered 400 with the service's message. */
  lemma RotaRejeitada(x: real, n: int)
    requires n >= 2 && x == n as real && n % 5 % 2 == 1
    ensures Processar(Pedido(x)) == Resposta(400, Erro(ErrorResponse(ErroAoProcessar, Mensagem(NaoRepresentavel(n, 1)))))
  {
    CalcularSaqueRejeitaResto(n);
    PedidoInteiro(x, n);
  }

  /** Every rejection message says the amount cannot be withdrawn. */
  lemma MensagemNaoRepresentavel(n: int, r: int)
    ensures Contains(Mensagem(NaoRepresentavel(n, r)), "Não é possível sacar")
  {
    var s := "Não é possível sacar o valor de R$ ";
    assert Mensagem(NaoRepresentavel(n, r))[0] == Lit(s);
    assert s[0..] == s;
    assert Substring("Não é possível sacar", s);
  }

  lemma RotaValor73()
    ensures Processar(Pedido(73.0)).status == 400
    ensures Contains(Processar(Pedido(73.0)).corpo.erro.message, "Não é possível sacar")
  {
    RotaRejeitada(73.0, 73);
    MensagemNaoRepresentavel(73, 1);
  }
}
