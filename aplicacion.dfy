/**
 * The application state `state` and the operations that change it: the
 * click that selects a seat, assigning and freeing the selected seat, and
 * adding, renaming and deleting companies, and the full reset.
 */
module Aplicacion {

  import opened Wrappers
  import opened Texto
  import opened Puestos
  import opened Empresas

  class Estado {
    /** `state.puestos`: the seat list; seats change in place, the list never grows or shrinks. */
    var puestos: seq<Puesto>
    /** `state.empresas`: the company list, in insertion order. */
    var empresas: seq<Empresa>
    /** `state.puestoSeleccionado`, as the position of the selected seat in `puestos`. */
    var seleccionado: Option<nat>

    /**
     * What every operation keeps: the selection points at a seat, every seat is
     * occupied exactly when it holds a company id, no seat holds the empty id,
     * and company ids and colours are unique.
     */
    ghost predicate Valid()
      reads this
    {
      && (seleccionado.Some? ==> seleccionado.value < |puestos|)
      && TodosCoherentes(puestos)
      && SinIdVacio(puestos)
      && IdsUnicos(empresas)
      && ColoresUnicos(empresas)
    }

    /**
     * Company names are unique ignoring case and none is empty. Every operation
     * but `EditarEmpresa`, the renaming as written, keeps this.
     */
    ghost predicate NombresValidos()
      reads this
    {
      NombresUnicos(empresas) && NombresLlenos(empresas)
    }

    /** Referential integrity: every company id held by a seat names a listed company. */
    ghost predicate Integro()
      reads this
    {
      Referenciados(puestos, empresas)
    }

    /**
     * Start-up: `cargarDatos` restores the stored companies (`guardadas`, the
     * empty list when nothing is stored) and any stored seats, and
     * `generarPuestos` then replaces the seats with the catalog, all free.
     * Stored data is not checked, so validity holds when the stored companies
     * have unique ids and colours.
     */
    constructor (guardadas: seq<Empresa>)
      ensures puestos == GenerarPuestos() && empresas == guardadas && seleccionado == None
      ensures IdsUnicos(guardadas) && ColoresUnicos(guardadas) ==> Valid()
      ensures NombresUnicos(guardadas) && NombresLlenos(guardadas) ==> NombresValidos()
      ensures Integro()
    {
      puestos := GenerarPuestos();
      empresas := guardadas;
      seleccionado := None;
    }

    /**
     * `handleCanvasClick` with `mostrarModalAsignacion`: the first seat hit by
     * the click becomes the selected one; a click that hits nothing leaves the
     * selection as it was.
     */
    method HandleCanvasClick(x: real, y: real)
      requires Valid()
      modifies this`seleccionado
      ensures Valid()
      ensures var hit := BuscarPuesto(puestos, x, y);
              seleccionado == if hit.Some? then hit else old(seleccionado)
    {
      var puesto := BuscarPuesto(puestos, x, y);
      if puesto.Some? {
        seleccionado := puesto;
      }
    }

    /** `cerrarModal`: the selection is dropped. */
    method CerrarModal()
      modifies this`seleccionado
      ensures seleccionado == None
    {
      seleccionado := None;
    }

    /**
     * `asignarPuesto` with the company id chosen in the select: the empty id is
     * refused; otherwise the selected seat, and only it, takes the company,
     * overwriting any previous one, and the selection is closed. Whether the
     * company exists is not checked, so integrity is kept only when it does.
     */
    method AsignarPuesto(empresaId: string) returns (res: Resultado)
      requires Valid()
      modifies this`puestos, this`seleccionado
      ensures Valid()
      ensures res == if empresaId == "" then CamposVacios else if old(seleccionado).None? then SinCambios else Hecho
      ensures res == Hecho ==> var i := old(seleccionado).value;
                               && puestos == old(puestos)[i := AsignadoA(old(puestos)[i], empresaId)]
                               && seleccionado == None
      ensures res != Hecho ==> puestos == old(puestos) && seleccionado == old(seleccionado)
      ensures old(Integro()) && (res != Hecho || ExisteEmpresa(empresas, empresaId)) ==> Integro()
    {
      if empresaId == "" {
        return CamposVacios;
      }
      if seleccionado.Some? {
        var i := seleccionado.value;
        puestos := puestos[i := AsignadoA(puestos[i], empresaId)];
        CerrarModal();
        return Hecho;
      }
      return SinCambios;
    }

    /**
     * `desasignarPuesto`: the selected seat, and only it, loses its company and
     * becomes free, and the selection is closed.
     */
    method DesasignarPuesto() returns (res: Resultado)
      requires Valid()
      modifies this`puestos, this`seleccionado
      ensures Valid()
      ensures res == if old(seleccionado).None? then SinCambios else Hecho
      ensures res == Hecho ==> var i := old(seleccionado).value;
                               && puestos == old(puestos)[i := Liberado(old(puestos)[i])]
                               && seleccionado == None
      ensures res != Hecho ==> puestos == old(puestos) && seleccionado == old(seleccionado)
      ensures old(Integro()) ==> Integro()
    {
      if seleccionado.Some? {
        var i := seleccionado.value;
        puestos := puestos[i := Liberado(puestos[i])];
        CerrarModal();
        return Hecho;
      }
      return SinCambios;
    }

    /**
     * `agregarEmpresa` with the form's name and colour and a fresh id (the code
     * takes `Date.now()`): the trimmed name and the colour must be non-empty
     * and clash with no company, the name compared lower-cased; on success
     * exactly one company, with the trimmed name, is appended at the end.
     */
    method AgregarEmpresa(nombre: string, color: string, nuevoId: string) returns (res: Resultado)
      requires Valid() && !ExisteEmpresa(empresas, nuevoId)
      modifies this`empresas
      ensures Valid()
      ensures res == ValidarAlta(old(empresas), Recortar(nombre), color)
      ensures empresas == if res == Hecho then old(empresas) + [Empresa(nuevoId, Recortar(nombre), color)] else old(empresas)
      ensures old(NombresValidos()) ==> NombresValidos()
      ensures old(Integro()) ==> Integro()
    {
      var n := Recortar(nombre);
      if n == "" || color == "" {
        return CamposVacios;
      }
      if NombreUsado(empresas, n) {
        return NombreDuplicado;
      }
      if ColorUsado(empresas, color) {
        return ColorDuplicado;
      }
      var empresa := Empresa(nuevoId, n, color);
      AltaConservaUnicidad(empresas, empresa);
      empresas := empresas + [empresa];
      return Hecho;
    }

    /**
     * `editarEmpresa` with the prompt's answer (`None` when it was cancelled),
     * as written: see `Renombrar`. Only that company's name changes; ids and
     * colours stay unique, but names may stop being unique or non-empty.
     */
    method EditarEmpresa(id: string, entrada: Option<string>) returns (res: Resultado)
      requires Valid()
      modifies this`empresas
      ensures Valid()
      ensures Cambio(res, empresas) == Renombrar(old(empresas), id, entrada)
      ensures old(Integro()) ==> Integro()
    {
      var k := BuscarEmpresa(empresas, id);
      if k.None? {
        return NoEncontrada;
      }
      var empresa := empresas[k.value];
      if entrada.Some? && entrada.value != "" && Recortar(entrada.value) != empresa.nombre {
        if NombreUsadoPorOtra(empresas, id, entrada.value) {
          return NombreDuplicado;
        }
        RenombrarConserva(empresas, id, entrada);
        empresas := ConNombre(empresas, k.value, Recortar(entrada.value));
        return Hecho;
      }
      return SinCambios;
    }

    /**
     * `editarEmpresa` corrected: the trimmed input is refused when empty and is
     * what is checked against the other names (see `RenombrarCorregido`), so
     * names stay unique and non-empty.
     */
    method EditarEmpresaCorregida(id: string, entrada: Option<string>) returns (res: Resultado)
      requires Valid()
      modifies this`empresas
      ensures Valid()
      ensures Cambio(res, empresas) == RenombrarCorregido(old(empresas), id, entrada)
      ensures old(NombresValidos()) ==> NombresValidos()
      ensures old(Integro()) ==> Integro()
    {
      var k := BuscarEmpresa(empresas, id);
      if k.None? {
        return NoEncontrada;
      }
      if entrada.None? || entrada.value == "" {
        return SinCambios;
      }
      var nuevoNombre := Recortar(entrada.value);
      if nuevoNombre == "" {
        return CamposVacios;
      }
      if nuevoNombre == empresas[k.value].nombre {
        return SinCambios;
      }
      if NombreUsadoPorOtra(empresas, id, nuevoNombre) {
        return NombreDuplicado;
      }
      RenombrarCorregidoConserva(empresas, id, entrada);
      empresas := ConNombre(empresas, k.value, nuevoNombre);
      return Hecho;
    }

    /**
     * `eliminarEmpresa` with the answer to its confirmation: an unknown id does
     * nothing; a company holding seats is deleted only if the user confirms
     * (the question is not asked otherwise); deleting frees its seats, leaves
     * every other seat alone and drops the company from the list.
     */
    method EliminarEmpresa(id: string, confirmado: bool) returns (res: Resultado)
      requires Valid()
      modifies this`puestos, this`empresas
      ensures Valid()
      ensures res == if !ExisteEmpresa(old(empresas), id) then NoEncontrada
                     else if |DeEmpresa(old(puestos), id)| > 0 && !confirmado then Cancelado
                     else Hecho
      ensures res == Hecho ==> puestos == Desasignados(old(puestos), id) && empresas == SinEmpresa(old(empresas), id)
      ensures res != Hecho ==> puestos == old(puestos) && empresas == old(empresas)
      ensures old(Integro()) ==> Integro()
      ensures old(NombresValidos()) ==> NombresValidos()
    {
      var k := BuscarEmpresa(empresas, id);
      if k.None? {
        return NoEncontrada;
      }
      var puestosAsignados := DeEmpresa(puestos, id);
      if |puestosAsignados| > 0 {
        if !confirmado {
          return Cancelado;
        }
        LiberarPuestosDe(id);
      } else {
        DesasignadosSinPuestos(puestos, id);
      }
      if old(Integro()) {
        EliminarConservaIntegridad(old(puestos), empresas, id);
      }
      EliminarConservaUnicidad(empresas, id, k.value);
      empresas := SinEmpresa(empresas, id);
      return Hecho;
    }

    /**
     * The cascade of `eliminarEmpresa`: every seat holding company `id` is
     * freed in place, and every other seat is left as it was.
     */
    method LiberarPuestosDe(id: string)
      requires Valid()
      modifies this`puestos
      ensures Valid()
      ensures puestos == Desasignados(old(puestos), id)
    {
      var i := 0;
      while i < |puestos|
        invariant 0 <= i <= |puestos| == |old(puestos)|
        invariant forall m :: 0 <= m < i ==> puestos[m] == Desasignados(old(puestos), id)[m]
        invariant forall m :: i <= m < |puestos| ==> puestos[m] == old(puestos)[m]
      {
        if puestos[i].empresaId == Some(id) {
          puestos := puestos[i := Liberado(puestos[i])];
        }
        i := i + 1;
      }
    }

    /**
     * `limpiarTodo` with the answer to its confirmation: when confirmed, every
     * company is gone and every seat is free, with the same seats, ids,
     * categories and shapes as before.
     */
    method LimpiarTodo(confirmado: bool) returns (res: Resultado)
      requires Valid()
      modifies this`puestos, this`empresas
      ensures Valid()
      ensures res == if confirmado then Hecho else Cancelado
      ensures res == Hecho ==> empresas == [] && puestos == TodosLibres(old(puestos))
      ensures res != Hecho ==> puestos == old(puestos) && empresas == old(empresas)
      ensures res == Hecho ==> Integro() && NombresValidos()
      ensures old(Integro()) ==> Integro()
      ensures old(NombresValidos()) ==> NombresValidos()
    {
      if !confirmado {
        return Cancelado;
      }
      empresas := [];
      ghost var antes := puestos;
      var i := 0;
      while i < |puestos|
        invariant 0 <= i <= |puestos| == |antes|
        invariant empresas == []
        invariant forall m :: 0 <= m < i ==> puestos[m] == Liberado(antes[m])
        invariant forall m :: i <= m < |puestos| ==> puestos[m] == antes[m]
      {
        puestos := puestos[i := Liberado(puestos[i])];
        i := i + 1;
      }
      assert puestos == TodosLibres(antes);
      return Hecho;
    }
  }
}
