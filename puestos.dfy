/**
 * Seats (`puestos`): their record, the fixed catalog `generarPuestos` builds,
 * the click hit test of `handleCanvasClick`, and the per-seat updates the
 * mutations apply.
 */
module Puestos {

  import opened Wrappers
  import opened Geometria

  /** The three seat categories, spelled as `TIPOS_PUESTO` spells them. */
  const GERENCIAL: string := "GERENCIAL"
  const PIZZAS: string := "PIZZAS"
  const ESTANDAR: string := "ESTÁNDAR"

  /** The category list `actualizarResumenGeneral` iterates over, in its order. */
  const TIPOS: seq<string> := [GERENCIAL, PIZZAS, ESTANDAR]

  predicate TipoConocido(t: string)
  {
    t == GERENCIAL || t == PIZZAS || t == ESTANDAR
  }

  /**
   * A seat's shape (`forma`) with the geometry it uses: a centre and a size for
   * `rect`, `circle` and `triangle`, the vertex list `puntos` for `polygon`.
   */
  datatype Forma =
    | Rect(centro: Punto, size: real)
    | Circle(centro: Punto, size: real)
    | Triangle(centro: Punto, size: real)
    | Polygon(puntos: seq<Punto>)

  /**
   * A seat. `tipo` is kept as the string the code stores, so that a category
   * outside the three is representable; `empresaId` is `None` for `null`.
   */
  datatype Puesto = Puesto(id: int, tipo: string, forma: Forma, empresaId: Option<string>, ocupado: bool)

  /** The occupancy invariant: `ocupado` holds exactly when a company id is set. */
  predicate Coherente(p: Puesto)
  {
    p.ocupado == p.empresaId.Some?
  }

  ghost predicate TodosCoherentes(ps: seq<Puesto>)
  {
    forall i :: 0 <= i < |ps| ==> Coherente(ps[i])
  }

  /** `asignarPuesto` refuses the empty id, so a stored company id is never empty. */
  ghost predicate SinIdVacio(ps: seq<Puesto>)
  {
    forall i :: 0 <= i < |ps| ==> ps[i].empresaId != Some("")
  }

  /** The predicate `handleCanvasClick` hands to `find`. */
  predicate Golpea(p: Puesto, x: real, y: real)
  {
    match p.forma
    case Polygon(pts) => DentroPoligono(pts, x, y)
    case _ => EnDisco(p.forma.centro, p.forma.size, x, y)
  }

  /**
   * `state.puestos.find(...)` with the click predicate, as the index of the
   * seat found: the first seat in list order that is hit, or `None` when no
   * seat is.
   */
  function BuscarPuesto(ps: seq<Puesto>, x: real, y: real): (r: Option<nat>)
    ensures r.Some? ==> r.value < |ps| && Golpea(ps[r.value], x, y)
    ensures r.Some? ==> forall j :: 0 <= j < r.value ==> !Golpea(ps[j], x, y)
    ensures r.None? ==> forall j :: 0 <= j < |ps| ==> !Golpea(ps[j], x, y)
  {
    if ps == [] then None
    else if Golpea(ps[0], x, y) then Some(0)
    else match BuscarPuesto(ps[1..], x, y)
      case None => None
      case Some(k) => Some(k + 1)
  }

  /** The vertices of seat 10, in the order the catalog lists them. */
  const HEXAGONO: seq<Punto> := [
    Punto(300.0, 180.0), Punto(320.0, 170.0), Punto(340.0, 180.0),
    Punto(340.0, 200.0), Punto(320.0, 210.0), Punto(300.0, 200.0)
  ]

  /** `generarPuestos`: ids 1 to 10 in order, known categories, nothing assigned. */
  function GenerarPuestos(): (r: seq<Puesto>)
    ensures |r| == 10
    ensures forall i :: 0 <= i < 10 ==> r[i].id == i + 1
    ensures forall i :: 0 <= i < 10 ==> TipoConocido(r[i].tipo)
    ensures forall i :: 0 <= i < 10 ==> r[i].empresaId.None? && !r[i].ocupado
  {
    [
      Puesto(1, GERENCIAL, Rect(Punto(100.0, 80.0), 20.0), None, false),
      Puesto(2, GERENCIAL, Rect(Punto(160.0, 80.0), 20.0), None, false),
      Puesto(3, GERENCIAL, Rect(Punto(220.0, 80.0), 20.0), None, false),
      Puesto(4, PIZZAS, Circle(Punto(100.0, 150.0), 18.0), None, false),
      Puesto(5, PIZZAS, Circle(Punto(100.0, 150.0), 18.0), None, false),
      Puesto(6, PIZZAS, Circle(Punto(220.0, 150.0), 18.0), None, false),
      Puesto(7, ESTANDAR, Triangle(Punto(121.0, 250.0), 16.0), None, false),
      Puesto(8, ESTANDAR, Triangle(Punto(122.0, 252.0), 16.0), None, false),
      Puesto(9, ESTANDAR, Triangle(Punto(220.0, 220.0), 16.0), None, false),
      Puesto(10, ESTANDAR, Polygon(HEXAGONO), None, false)
    ]
  }

  /** Seat 1 (centre (100, 80), size 20) is hit 10 pixels right of its centre and missed at 18. */
  lemma RadioDeClic()
    ensures Golpea(GenerarPuestos()[0], 110.0, 80.0)
    ensures !Golpea(GenerarPuestos()[0], 118.0, 80.0)
  {
  }

  /** A click at (110, 80) selects seat 1; a click at (118, 80) selects nothing. */
  lemma ClicsDeEjemplo()
    ensures BuscarPuesto(GenerarPuestos(), 110.0, 80.0) == Some(0)
    ensures BuscarPuesto(GenerarPuestos(), 118.0, 80.0) == None
  {
    var ps := GenerarPuestos();
    RadioDeClic();
    FueraDeFranja(HEXAGONO, 118.0, 80.0);
    forall i | 0 <= i < |ps|
      ensures !Golpea(ps[i], 118.0, 80.0)
    {
      if 0 < i < 9 {
        LejosNoGolpea(ps[i].forma.centro, ps[i].forma.size, 118.0, 80.0);
      }
    }
  }

  /** Seat 10's hexagon contains (320, 190) and does not contain (0, 0). */
  lemma HexagonoDeEjemplo()
    ensures DentroPoligono(HEXAGONO, 320.0, 190.0)
    ensures !DentroPoligono(HEXAGONO, 0.0, 0.0)
  {
    var h := HEXAGONO;
    assert Cruces(h, 320.0, 190.0, 6) == 1 by {
      assert !Cruza(h[0], h[5], 320.0, 190.0);
      assert !Cruza(h[1], h[0], 320.0, 190.0);
      assert !Cruza(h[2], h[1], 320.0, 190.0);
      assert Cruza(h[3], h[2], 320.0, 190.0);
      assert !Cruza(h[4], h[3], 320.0, 190.0);
      assert !Cruza(h[5], h[4], 320.0, 190.0);
    }
    FueraDeFranja(h, 0.0, 0.0);
  }

  /**
   * Seat 5 has the centre and size of seat 4, which comes first in the list, so
   * no click ever selects seat 5.
   */
  lemma QuintoOculto(x: real, y: real)
    ensures BuscarPuesto(GenerarPuestos(), x, y) != Some(4)
  {
    var ps := GenerarPuestos();
    assert Golpea(ps[4], x, y) == Golpea(ps[3], x, y);
  }

  /** A seat after `desasignarPuesto`: no company, not occupied, nothing else touched. */
  function Liberado(p: Puesto): (q: Puesto)
    ensures q.empresaId.None? && !q.ocupado
    ensures q.id == p.id && q.tipo == p.tipo && q.forma == p.forma
  {
    p.(empresaId := None, ocupado := false)
  }

  /** A seat after `asignarPuesto` with company `id`: the previous company, if any, is overwritten. */
  function AsignadoA(p: Puesto, id: string): (q: Puesto)
    ensures q.empresaId == Some(id) && q.ocupado
    ensures q.id == p.id && q.tipo == p.tipo && q.forma == p.forma
  {
    p.(empresaId := Some(id), ocupado := true)
  }

  /** Freeing a seat twice is freeing it once. */
  lemma LiberadoIdempotente(p: Puesto)
    ensures Liberado(Liberado(p)) == Liberado(p)
  {
  }

  /** `state.puestos.filter(p => p.empresaId === id)`: the seats of company `id`, in order. */
  function DeEmpresa(ps: seq<Puesto>, id: string): (r: seq<Puesto>)
    ensures |r| <= |ps|
    ensures forall q :: q in r ==> q in ps && q.empresaId == Some(id)
    ensures forall i :: 0 <= i < |ps| && ps[i].empresaId == Some(id) ==> ps[i] in r
  {
    if ps == [] then []
    else (if ps[0].empresaId == Some(id) then [ps[0]] else []) + DeEmpresa(ps[1..], id)
  }

  /**
   * The seats after the cascade of `eliminarEmpresa`: the seats of company `id`
   * are freed, every other seat is as it was, and no seat keeps `id`.
   */
  function Desasignados(ps: seq<Puesto>, id: string): (r: seq<Puesto>)
    ensures |r| == |ps|
    ensures forall i :: 0 <= i < |ps| ==> r[i].id == ps[i].id && r[i].tipo == ps[i].tipo && r[i].forma == ps[i].forma
    ensures forall i :: 0 <= i < |ps| ==> r[i].empresaId != Some(id)
    ensures forall i :: 0 <= i < |ps| && ps[i].empresaId != Some(id) ==> r[i] == ps[i]
    ensures forall i :: 0 <= i < |ps| && ps[i].empresaId == Some(id) ==> r[i].empresaId.None? && !r[i].ocupado
  {
    seq(|ps|, i requires 0 <= i < |ps| => if ps[i].empresaId == Some(id) then Liberado(ps[i]) else ps[i])
  }

  /** When the company holds no seat, the cascade changes nothing. */
  lemma DesasignadosSinPuestos(ps: seq<Puesto>, id: string)
    requires |DeEmpresa(ps, id)| == 0
    ensures Desasignados(ps, id) == ps
  {
    var r := Desasignados(ps, id);
    assert forall m :: 0 <= m < |ps| ==> ps[m].empresaId != Some(id);
    assert forall m :: 0 <= m < |ps| ==> r[m] == ps[m];
  }

  /** The seats after `limpiarTodo`: the same seats, all free. */
  function TodosLibres(ps: seq<Puesto>): (r: seq<Puesto>)
    ensures |r| == |ps|
    ensures forall i :: 0 <= i < |ps| ==> r[i].id == ps[i].id && r[i].tipo == ps[i].tipo && r[i].forma == ps[i].forma
    ensures forall i :: 0 <= i < |ps| ==> r[i].empresaId.None? && !r[i].ocupado
  {
    seq(|ps|, i requires 0 <= i < |ps| => Liberado(ps[i]))
  }
}
