/** The check-in form's date rules in frontend/script.js: nights between two dates and the checkout clamp.
    A date field holds a day number (days since the epoch); `new Date(field)` is its UTC midnight in milliseconds. */
module Fechas {
  import opened Common

  /** `1000 * 3600 * 24`. */
  const DayMs: int := 1000 * 3600 * 24

  /** `Math.ceil(x / d)` for a positive divisor, in integers: the least `r` with `x <= d * r`. */
  function CeilDiv(x: int, d: int): (r: int)
    requires d > 0
    ensures d * (r - 1) < x <= d * r
  {
    var q := (-x) / d;
    assert -x == d * q + (-x) % d;
    assert d * (-q - 1) == -(d * q) - d;
    -q
  }

  /** The ceiling is unique: the bounds of `CeilDiv` determine it. */
  lemma CeilDivUnique(x: int, d: int, r: int)
    requires d > 0 && d * (r - 1) < x <= d * r
    ensures CeilDiv(x, d) == r
  {
    var c := CeilDiv(x, d);
    if c < r {
      MulMonotone(d, c, r - 1);
    } else if c > r {
      MulMonotone(d, r, c - 1);
    }
  }

  lemma MulMonotone(d: int, a: int, b: int)
    requires d > 0 && a <= b
    ensures d * a <= d * b
  {
    assert d * b - d * a == d * (b - a);
  }

  /** Whole days divide exactly. */
  lemma CeilDivDays(days: int)
    ensures CeilDiv(days * DayMs, DayMs) == days
  {
    assert DayMs * (days - 1) == days * DayMs - DayMs;
    CeilDivUnique(days * DayMs, DayMs, days);
  }

  /** `calcularNochesDesdeFechas`: the nights between two instants, rounded up, with no positivity check. */
  function NochesDesdeFechas(inicioMs: int, finMs: int): (r: int)
    ensures DayMs * (r - 1) < finMs - inicioMs <= DayMs * r
    ensures finMs <= inicioMs ==> r <= 0
    ensures finMs > inicioMs ==> r >= 1
  {
    var r := CeilDiv(finMs - inicioMs, DayMs);
    if finMs <= inicioMs && r > 0 then
      MulMonotone(DayMs, 0, r - 1);
      r
    else if finMs > inicioMs && r < 1 then
      MulMonotone(DayMs, r, 0);
      r
    else r
  }

  /** `new Date(value)` of a date field. */
  function Ms(day: int): int
  {
    day * DayMs
  }

  /** What `calcularNoches` does with the two date fields. */
  datatype Noches =
    | Unchanged          // a field is empty: nothing happens
    | Rejected           // checkout not after check-in: alert, clear checkout, nights "0"
    | Computed(n: int)   // nights written and the summary shown

  /** The decision `calcularNoches` takes on the check-in and checkout fields. */
  function EvaluarNoches(entrada: Option<int>, salida: Option<int>): (o: Noches)
    ensures o == Unchanged <==> entrada.None? || salida.None?
    ensures o == Rejected <==> entrada.Some? && salida.Some? && salida.value <= entrada.value
    ensures o.Computed? ==> o.n == salida.value - entrada.value && o.n >= 1
  {
    if entrada.None? || salida.None? then Unchanged
    else
      var e, s := entrada.value, salida.value;
      MsOrder(e, s);
      if Ms(s) <= Ms(e) then Rejected
      else
        assert Ms(s) - Ms(e) == (s - e) * DayMs;
        CeilDivDays(s - e);
        Computed(CeilDiv(Ms(s) - Ms(e), DayMs))
  }

  /** Comparing two dates as instants compares their day numbers. */
  lemma MsOrder(a: int, b: int)
    ensures Ms(a) <= Ms(b) <==> a <= b
    ensures Ms(a) < Ms(b) <==> a < b
  {
    if a <= b {
      MulMonotone(DayMs, a, b);
    } else {
      MulMonotone(DayMs, b, a);
    }
    assert Ms(b) - Ms(a) == (b - a) * DayMs;
  }

  /** The checkout field after the check-in date changes to `entrada`: a checkout before the new
      minimum (the day after check-in) is raised to it; an empty or later one is kept. */
  function AjustarSalida(entrada: int, salida: Option<int>): (r: Option<int>)
    ensures salida.None? ==> r == None
    ensures salida.Some? ==> r.Some? && r.value >= entrada + 1
    ensures salida.Some? && salida.value >= entrada + 1 ==> r == salida
    ensures salida.Some? && salida.value < entrada + 1 ==> r == Some(entrada + 1)
  {
    MsOrder(entrada + 1, if salida.Some? then salida.value else entrada + 1);
    var minSalida := Ms(entrada) + DayMs;
    assert minSalida == Ms(entrada + 1);
    if salida.Some? && Ms(salida.value) < minSalida then Some(entrada + 1) else salida
  }

  /** After the clamp, a filled checkout field always gives at least one night. */
  lemma ClampGivesNights(entrada: int, salida: Option<int>)
    requires salida.Some?
    ensures EvaluarNoches(Some(entrada), AjustarSalida(entrada, salida)).Computed?
    ensures EvaluarNoches(Some(entrada), AjustarSalida(entrada, salida)).n >= 1
  {
  }

  /** What `mostrarInfoEstadia` is asked to display (its rendering is not modelled). */
  datatype Resumen = Resumen(noches: int, entrada: int, salida: int)

  /** The check-in form's date fields. */
  class Formulario {
    var fechaEntrada: Option<int>
    var fechaSalida: Option<int>
    var minEntrada: Option<int>
    var minSalida: Option<int>
    var noches: int
    var resumen: Option<Resumen>

    constructor ()
      ensures fechaEntrada == None && fechaSalida == None && minEntrada == None && minSalida == None
      ensures noches == 0 && resumen == None
    {
      fechaEntrada, fechaSalida, minEntrada, minSalida := None, None, None, None;
      noches, resumen := 0, None;
    }

    /** `calcularNoches`; `alerta` is the alert it raises. */
    method CalcularNoches() returns (alerta: bool)
      modifies this
      ensures fechaEntrada == old(fechaEntrada) && minEntrada == old(minEntrada) && minSalida == old(minSalida)
      ensures alerta <==> EvaluarNoches(old(fechaEntrada), old(fechaSalida)) == Rejected
      ensures match EvaluarNoches(old(fechaEntrada), old(fechaSalida))
        case Unchanged => fechaSalida == old(fechaSalida) && noches == old(noches) && resumen == old(resumen)
        case Rejected => fechaSalida == None && noches == 0 && resumen == old(resumen)
        case Computed(n) =>
          (fechaSalida == old(fechaSalida) && noches == n
           && resumen == Some(Resumen(n, old(fechaEntrada).value, old(fechaSalida).value)))
    {
      alerta := false;
      if fechaEntrada.Some? && fechaSalida.Some? {
        var entrada, salida := Ms(fechaEntrada.value), Ms(fechaSalida.value);
        if salida <= entrada {
          alerta := true;
          fechaSalida := None;
          noches := 0;
          return;
        }
        var diferencia := salida - entrada;
        noches := CeilDiv(diferencia, DayMs);
        resumen := Some(Resumen(noches, fechaEntrada.value, fechaSalida.value));
      }
    }

    /** The `change` listener of `fecha_entrada`, after the field took the value `nueva`. */
    method CambiarEntrada(nueva: Option<int>) returns (alerta: bool)
      modifies this
      ensures fechaEntrada == nueva && minEntrada == old(minEntrada)
      ensures nueva.Some? ==> minSalida == Some(nueva.value + 1)
      ensures nueva.None? ==> minSalida == old(minSalida)
      ensures nueva.Some? && old(fechaSalida).Some? ==>
        && !alerta
        && fechaSalida == AjustarSalida(nueva.value, old(fechaSalida))
        && fechaSalida.value >= nueva.value + 1
        && noches == fechaSalida.value - nueva.value && noches >= 1
        && resumen == Some(Resumen(noches, nueva.value, fechaSalida.value))
      ensures nueva.None? || old(fechaSalida).None? ==>
        && !alerta
        && fechaSalida == old(fechaSalida) && noches == old(noches) && resumen == old(resumen)
    {
      fechaEntrada := nueva;
      if nueva.Some? {
        var limite := Ms(nueva.value) + DayMs;
        minSalida := Some(nueva.value + 1);
        if fechaSalida.Some? && Ms(fechaSalida.value) < limite {
          fechaSalida := Some(nueva.value + 1);
        }
        assert fechaSalida == AjustarSalida(nueva.value, old(fechaSalida));
        if old(fechaSalida).Some? {
          ClampGivesNights(nueva.value, old(fechaSalida));
        }
      }
      alerta := CalcularNoches();
    }

    /** `configurarFechas`: today as check-in and its minimum, tomorrow as checkout and its minimum. */
    method ConfigurarFechas(hoy: int)
      modifies this
      ensures fechaEntrada == Some(hoy) && minEntrada == Some(hoy)
      ensures fechaSalida == Some(hoy + 1) && minSalida == Some(hoy + 1)
      ensures noches == 1 && resumen == Some(Resumen(1, hoy, hoy + 1))
    {
      var manana := hoy + 1;
      minEntrada := Some(hoy);
      minSalida := Some(manana);
      fechaEntrada := Some(hoy);
      fechaSalida := Some(manana);
      var _ := CalcularNoches();
    }
  }
}
