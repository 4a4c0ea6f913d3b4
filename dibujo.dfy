/** The fill colour `dibujarPuestos` paints each seat with. */
module Dibujo {

  import opened Wrappers
  import opened Puestos
  import opened Empresas

  const BLANCO: string := "#ffffff"

  /**
   * An occupied seat with a non-empty company id is painted in the colour of
   * the first company with that id; a free seat, or one whose company is not
   * listed, is painted white.
   */
  function ColorRelleno(p: Puesto, es: seq<Empresa>): (c: string)
    ensures !(p.ocupado && p.empresaId.Some? && p.empresaId.value != "") ==> c == BLANCO
    ensures p.empresaId.Some? && !ExisteEmpresa(es, p.empresaId.value) ==> c == BLANCO
    ensures c != BLANCO ==> p.empresaId.Some? && exists k :: 0 <= k < |es| && es[k].id == p.empresaId.value && es[k].color == c
  {
    if p.ocupado && p.empresaId.Some? && p.empresaId.value != "" then
      match BuscarEmpresa(es, p.empresaId.value)
      case Some(k) => es[k].color
      case None => BLANCO
    else
      BLANCO
  }

  /** With unique ids, an occupied seat is painted in its own company's colour. */
  lemma ColorDeSuEmpresa(p: Puesto, es: seq<Empresa>, k: nat)
    requires IdsUnicos(es) && k < |es|
    requires p.ocupado && p.empresaId == Some(es[k].id) && es[k].id != ""
    ensures ColorRelleno(p, es) == es[k].color
  {
    BuscarEmpresaUnica(es, es[k].id, k);
  }

  /**
   * In a consistent state where no company chose white, a seat is painted
   * white exactly when it is free.
   */
  lemma BlancoSiiLibre(p: Puesto, es: seq<Empresa>)
    requires Coherente(p) && p.empresaId != Some("")
    requires p.empresaId.Some? ==> ExisteEmpresa(es, p.empresaId.value)
    requires !ColorUsado(es, BLANCO)
    ensures ColorRelleno(p, es) == BLANCO <==> !p.ocupado
  {
    if p.ocupado {
      var k := BuscarEmpresa(es, p.empresaId.value).value;
      assert es[k].color != BLANCO;
    }
  }
}
