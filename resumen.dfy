/**
 * The occupancy tables: one row per company (`actualizarTablaEmpresas`) and
 * the per-category and overall figures (`actualizarResumenGeneral`). Every
 * count is a `filter(...).length` over the seat list.
 */
module Resumen {

  import opened Wrappers
  import opened Puestos
  import opened Empresas

  /** `puestos.filter(p => p.tipo === tipo).length`. */
  function Contar(ps: seq<Puesto>, tipo: string): (n: nat)
    ensures n <= |ps|
  {
    if ps == [] then 0 else (if ps[0].tipo == tipo then 1 else 0) + Contar(ps[1..], tipo)
  }

  /** `puestos.filter(p => p.tipo === tipo && p.ocupado).length`: never more than the seats of that category. */
  function ContarOcupados(ps: seq<Puesto>, tipo: string): (n: nat)
    ensures n <= Contar(ps, tipo)
  {
    if ps == [] then 0
    else (if ps[0].tipo == tipo && ps[0].ocupado then 1 else 0) + ContarOcupados(ps[1..], tipo)
  }

  /** The number of occupied seats, whatever their category. */
  function Ocupados(ps: seq<Puesto>): (n: nat)
    ensures n <= |ps|
  {
    if ps == [] then 0 else (if ps[0].ocupado then 1 else 0) + Ocupados(ps[1..])
  }

  ghost predicate TiposConocidos(ps: seq<Puesto>)
  {
    forall i :: 0 <= i < |ps| ==> TipoConocido(ps[i].tipo)
  }

  /**
   * When every seat has one of the three categories, the category totals add
   * up to the seat count and the per-category occupied counts add up to the
   * occupied seats.
   */
  lemma {:induction false} SumaPorTipos(ps: seq<Puesto>)
    requires TiposConocidos(ps)
    ensures Contar(ps, GERENCIAL) + Contar(ps, PIZZAS) + Contar(ps, ESTANDAR) == |ps|
    ensures ContarOcupados(ps, GERENCIAL) + ContarOcupados(ps, PIZZAS) + ContarOcupados(ps, ESTANDAR) == Ocupados(ps)
  {
    if ps != [] {
      assert TiposConocidos(ps[1..]) by {
        forall i | 0 <= i < |ps[1..]| ensures TipoConocido(ps[1..][i].tipo) {
          assert ps[1..][i] == ps[i + 1];
        }
      }
      SumaPorTipos(ps[1..]);
      assert TipoConocido(ps[0].tipo);
    }
  }

  /** One row of the company table: name, colour, seats per category and their total. */
  datatype Fila = Fila(nombre: string, color: string, gerencial: nat, pizzas: nat, estandar: nat, total: nat)

  /** The row `actualizarTablaEmpresas` builds for company `e`. */
  function FilaEmpresa(ps: seq<Puesto>, e: Empresa): Fila
  {
    var mios := DeEmpresa(ps, e.id);
    var g := Contar(mios, GERENCIAL);
    var p := Contar(mios, PIZZAS);
    var s := Contar(mios, ESTANDAR);
    Fila(e.nombre, e.color, g, p, s, g + p + s)
  }

  /** The seats a filter returns are seats of the list, so they keep its categories. */
  lemma DeEmpresaTiposConocidos(ps: seq<Puesto>, id: string)
    requires TiposConocidos(ps)
    ensures TiposConocidos(DeEmpresa(ps, id))
  {
    var r := DeEmpresa(ps, id);
    forall i | 0 <= i < |r| ensures TipoConocido(r[i].tipo) {
      assert r[i] in r;
      var j :| 0 <= j < |ps| && ps[j] == r[i];
    }
  }

  /**
   * A company's row shows its name and colour, and when every seat has a known
   * category its total is exactly the number of seats assigned to it.
   */
  lemma FilaCuentaSusPuestos(ps: seq<Puesto>, e: Empresa)
    requires TiposConocidos(ps)
    ensures FilaEmpresa(ps, e).nombre == e.nombre && FilaEmpresa(ps, e).color == e.color
    ensures FilaEmpresa(ps, e).total == |DeEmpresa(ps, e.id)|
  {
    DeEmpresaTiposConocidos(ps, e.id);
    SumaPorTipos(DeEmpresa(ps, e.id));
  }

  /** The company table: one row per company, in the order of the company list. */
  function TablaEmpresas(ps: seq<Puesto>, es: seq<Empresa>): (r: seq<Fila>)
    ensures |r| == |es|
    ensures forall i :: 0 <= i < |es| ==> r[i] == FilaEmpresa(ps, es[i])
  {
    if es == [] then [] else [FilaEmpresa(ps, es[0])] + TablaEmpresas(ps, es[1..])
  }

  function SumaTotales(fs: seq<Fila>): nat
  {
    if fs == [] then 0 else fs[0].total + SumaTotales(fs[1..])
  }

  /** The number of seats whose company id names a company of `es`. */
  function Asignados(ps: seq<Puesto>, es: seq<Empresa>): nat
  {
    if ps == [] then 0
    else (if ps[0].empresaId.Some? && ExisteEmpresa(es, ps[0].empresaId.value) then 1 else 0) + Asignados(ps[1..], es)
  }

  lemma ExisteEnCabeza(e: Empresa, es: seq<Empresa>, id: string)
    ensures ExisteEmpresa([e] + es, id) <==> e.id == id || ExisteEmpresa(es, id)
  {
    var l := [e] + es;
    if e.id == id {
      assert l[0].id == id;
    }
    if ExisteEmpresa(es, id) {
      var k :| 0 <= k < |es| && es[k].id == id;
      assert l[k + 1].id == id;
    }
    if ExisteEmpresa(l, id) && e.id != id {
      var k :| 0 <= k < |l| && l[k].id == id;
      assert es[k - 1].id == id;
    }
  }

  /** Adding a company with a new id adds exactly its seats to the assigned count. */
  lemma {:induction false} AsignadosConUnaMas(ps: seq<Puesto>, e: Empresa, es: seq<Empresa>)
    requires !ExisteEmpresa(es, e.id)
    ensures Asignados(ps, [e] + es) == |DeEmpresa(ps, e.id)| + Asignados(ps, es)
  {
    if ps != [] {
      AsignadosConUnaMas(ps[1..], e, es);
      if ps[0].empresaId.Some? {
        ExisteEnCabeza(e, es, ps[0].empresaId.value);
      }
    }
  }

  lemma {:induction false} AsignadosSinEmpresas(ps: seq<Puesto>)
    ensures Asignados(ps, []) == 0
  {
    if ps != [] {
      AsignadosSinEmpresas(ps[1..]);
    }
  }

  /** With unique ids, the company table's totals add up to the seats assigned to listed companies. */
  lemma {:induction false} SumaDeFilas(ps: seq<Puesto>, es: seq<Empresa>)
    requires TiposConocidos(ps) && IdsUnicos(es)
    ensures SumaTotales(TablaEmpresas(ps, es)) == Asignados(ps, es)
  {
    if es == [] {
      AsignadosSinEmpresas(ps);
    } else {
      var e, rest := es[0], es[1..];
      assert es == [e] + rest;
      assert IdsUnicos(rest) by {
        forall i, j | 0 <= i < j < |rest| ensures rest[i].id != rest[j].id {
          assert rest[i] == es[i + 1] && rest[j] == es[j + 1];
        }
      }
      assert !ExisteEmpresa(rest, e.id) by {
        forall k | 0 <= k < |rest| ensures rest[k].id != e.id {
          assert rest[k] == es[k + 1];
        }
      }
      SumaDeFilas(ps, rest);
      FilaCuentaSusPuestos(ps, e);
      AsignadosConUnaMas(ps, e, rest);
    }
  }

  /** When every seat is consistent and references a listed company, the assigned seats are the occupied ones. */
  lemma {:induction false} AsignadosSonOcupados(ps: seq<Puesto>, es: seq<Empresa>)
    requires TodosCoherentes(ps) && Referenciados(ps, es)
    ensures Asignados(ps, es) == Ocupados(ps)
  {
    if ps != [] {
      assert TodosCoherentes(ps[1..]) && Referenciados(ps[1..], es) by {
        forall i | 0 <= i < |ps[1..]| ensures ps[1..][i] == ps[i + 1] { }
      }
      AsignadosSonOcupados(ps[1..], es);
      assert Coherente(ps[0]);
    }
  }

  /**
   * The two tables agree: in a consistent state the company rows' totals add
   * up to the number of occupied seats of the general summary.
   */
  lemma TablasCuadran(ps: seq<Puesto>, es: seq<Empresa>)
    requires TiposConocidos(ps) && TodosCoherentes(ps) && Referenciados(ps, es) && IdsUnicos(es)
    ensures SumaTotales(TablaEmpresas(ps, es)) == Ocupados(ps)
    ensures Ocupados(ps) == ContarOcupados(ps, GERENCIAL) + ContarOcupados(ps, PIZZAS) + ContarOcupados(ps, ESTANDAR)
  {
    SumaDeFilas(ps, es);
    AsignadosSonOcupados(ps, es);
    SumaPorTipos(ps);
  }

  /** One line of the general summary: a category's total, occupied and available seats. */
  datatype Linea = Linea(tipo: string, total: nat, ocupados: nat, disponibles: int)

  ghost function SumaContar(ps: seq<Puesto>, ts: seq<string>): int
  {
    if ts == [] then 0 else SumaContar(ps, ts[..|ts| - 1]) + Contar(ps, ts[|ts| - 1])
  }

  ghost function SumaOcupados(ps: seq<Puesto>, ts: seq<string>): int
  {
    if ts == [] then 0 else SumaOcupados(ps, ts[..|ts| - 1]) + ContarOcupados(ps, ts[|ts| - 1])
  }

  /** Over the three categories, the accumulated sums are the sums of the three counts. */
  lemma SumasDeLosTipos(ps: seq<Puesto>)
    ensures SumaContar(ps, TIPOS) == Contar(ps, GERENCIAL) + Contar(ps, PIZZAS) + Contar(ps, ESTANDAR)
    ensures SumaOcupados(ps, TIPOS) == ContarOcupados(ps, GERENCIAL) + ContarOcupados(ps, PIZZAS) + ContarOcupados(ps, ESTANDAR)
  {
    var t := TIPOS;
    assert t[..2] == [GERENCIAL, PIZZAS];
    assert [GERENCIAL, PIZZAS][..1] == [GERENCIAL] && [GERENCIAL][..0] == [];
    assert SumaContar(ps, [GERENCIAL]) == Contar(ps, GERENCIAL);
    assert SumaContar(ps, [GERENCIAL, PIZZAS]) == Contar(ps, GERENCIAL) + Contar(ps, PIZZAS);
    assert SumaOcupados(ps, [GERENCIAL]) == ContarOcupados(ps, GERENCIAL);
    assert SumaOcupados(ps, [GERENCIAL, PIZZAS]) == ContarOcupados(ps, GERENCIAL) + ContarOcupados(ps, PIZZAS);
  }

  /**
   * `actualizarResumenGeneral`: for each category in `TIPOS` order, its total,
   * occupied and available (total minus occupied) seats, accumulated into the
   * grand totals. When every seat has a known category, the grand total is the
   * seat count and the grand occupied figure the number of occupied seats.
   */
  method ActualizarResumenGeneral(ps: seq<Puesto>) returns (lineas: seq<Linea>, total: int, totalOcupados: int, totalDisponibles: int)
    ensures |lineas| == |TIPOS|
    ensures forall k :: 0 <= k < |TIPOS| ==>
              && lineas[k].tipo == TIPOS[k]
              && lineas[k].total == Contar(ps, TIPOS[k])
              && lineas[k].ocupados == ContarOcupados(ps, TIPOS[k])
              && lineas[k].disponibles == lineas[k].total - lineas[k].ocupados >= 0
    ensures total == Contar(ps, GERENCIAL) + Contar(ps, PIZZAS) + Contar(ps, ESTANDAR)
    ensures totalOcupados == ContarOcupados(ps, GERENCIAL) + ContarOcupados(ps, PIZZAS) + ContarOcupados(ps, ESTANDAR)
    ensures totalDisponibles == total - totalOcupados
    ensures TiposConocidos(ps) ==> total == |ps| && totalOcupados == Ocupados(ps)
  {
    var tipos := TIPOS;
    total, totalOcupados, totalDisponibles := 0, 0, 0;
    lineas := [];
    for k := 0 to |tipos|
      invariant |lineas| == k
      invariant forall m :: 0 <= m < k ==>
                  lineas[m] == Linea(tipos[m], Contar(ps, tipos[m]), ContarOcupados(ps, tipos[m]),
                                     Contar(ps, tipos[m]) - ContarOcupados(ps, tipos[m]))
      invariant total == SumaContar(ps, tipos[..k])
      invariant totalOcupados == SumaOcupados(ps, tipos[..k])
      invariant totalDisponibles == total - totalOcupados
    {
      var tipo := tipos[k];
      var totalTipo := Contar(ps, tipo);
      var ocupadosTipo := ContarOcupados(ps, tipo);
      var disponiblesTipo := totalTipo - ocupadosTipo;
      lineas := lineas + [Linea(tipo, totalTipo, ocupadosTipo, disponiblesTipo)];
      assert tipos[..k + 1][..k] == tipos[..k];
      total := total + totalTipo;
      totalOcupados := totalOcupados + ocupadosTipo;
      totalDisponibles := totalDisponibles + disponiblesTipo;
    }
    assert tipos[..3] == tipos;
    SumasDeLosTipos(ps);
    if TiposConocidos(ps) {
      SumaPorTipos(ps);
    }
  }
}
