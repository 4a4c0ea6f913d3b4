/**
 * Companies (`empresas`): their record, the lookups and checks the
 * company operations run, the `filter` that deletes one, and the renaming
 * `editarEmpresa` performs.
 */
module Empresas {

  import opened Wrappers
  import opened Texto
  import opened Puestos

  datatype Empresa = Empresa(id: string, nombre: string, color: string)

  /** The outcome of an operation, one value per user-facing message of the code. */
  datatype Resultado =
    | Hecho            // the operation took effect
    | CamposVacios     // "Por favor completa todos los campos" / "Por favor selecciona una empresa"
    | NombreDuplicado  // "Ya existe una empresa con ese nombre"
    | ColorDuplicado   // "Ya existe una empresa con ese color"
    | NoEncontrada     // the `find` by id came back empty
    | SinCambios       // nothing to do: no seat selected, prompt cancelled or name unchanged
    | Cancelado        // the user declined the confirmation

  /** A result together with the company list it leaves. */
  datatype Cambio = Cambio(resultado: Resultado, empresas: seq<Empresa>)

  ghost predicate IdsUnicos(es: seq<Empresa>)
  {
    forall i, j :: 0 <= i < j < |es| ==> es[i].id != es[j].id
  }

  ghost predicate ColoresUnicos(es: seq<Empresa>)
  {
    forall i, j :: 0 <= i < j < |es| ==> es[i].color != es[j].color
  }

  /** No two companies have names that are equal once lower-cased. */
  ghost predicate NombresUnicos(es: seq<Empresa>)
  {
    forall i, j :: 0 <= i < j < |es| ==> Minusculas(es[i].nombre) != Minusculas(es[j].nombre)
  }

  /** Every company has a non-empty name, as `agregarEmpresa` demands of the trimmed input. */
  ghost predicate NombresLlenos(es: seq<Empresa>)
  {
    forall i :: 0 <= i < |es| ==> es[i].nombre != ""
  }

  predicate ExisteEmpresa(es: seq<Empresa>, id: string)
  {
    exists k :: 0 <= k < |es| && es[k].id == id
  }

  /** Referential integrity: every company id held by a seat names a listed company. */
  ghost predicate Referenciados(ps: seq<Puesto>, es: seq<Empresa>)
  {
    forall i :: 0 <= i < |ps| && ps[i].empresaId.Some? ==> ExisteEmpresa(es, ps[i].empresaId.value)
  }

  /** `state.empresas.find(e => e.id === id)`, as the index of the first company with that id. */
  function BuscarEmpresa(es: seq<Empresa>, id: string): (r: Option<nat>)
    ensures r.Some? ==> r.value < |es| && es[r.value].id == id
    ensures r.Some? ==> forall j :: 0 <= j < r.value ==> es[j].id != id
    ensures r.None? <==> !ExisteEmpresa(es, id)
  {
    if es == [] then None
    else if es[0].id == id then Some(0)
    else match BuscarEmpresa(es[1..], id)
      case None => None
      case Some(k) => Some(k + 1)
  }

  /** With unique ids, the company found is the one that has the id. */
  lemma BuscarEmpresaUnica(es: seq<Empresa>, id: string, k: nat)
    requires IdsUnicos(es) && k < |es| && es[k].id == id
    ensures BuscarEmpresa(es, id) == Some(k)
  {
  }

  /** `some(e => e.nombre.toLowerCase() === nombre.toLowerCase())`. */
  predicate NombreUsado(es: seq<Empresa>, nombre: string)
  {
    exists i :: 0 <= i < |es| && Minusculas(es[i].nombre) == Minusculas(nombre)
  }

  /** `some(e => e.color === color)`. */
  predicate ColorUsado(es: seq<Empresa>, color: string)
  {
    exists i :: 0 <= i < |es| && es[i].color == color
  }

  /** `some(e => e.id !== id && e.nombre.toLowerCase() === nombre.toLowerCase())`. */
  predicate NombreUsadoPorOtra(es: seq<Empresa>, id: string, nombre: string)
  {
    exists i :: 0 <= i < |es| && es[i].id != id && Minusculas(es[i].nombre) == Minusculas(nombre)
  }

  /**
   * The validation of `agregarEmpresa`, in the code's order, on the trimmed
   * name: empty fields, then a case-insensitive name clash, then a colour clash.
   */
  function ValidarAlta(es: seq<Empresa>, nombre: string, color: string): (r: Resultado)
    ensures r == Hecho || r == CamposVacios || r == NombreDuplicado || r == ColorDuplicado
    ensures r == CamposVacios <==> nombre == "" || color == ""
    ensures r == NombreDuplicado <==> nombre != "" && color != "" && NombreUsado(es, nombre)
    ensures r == ColorDuplicado <==> nombre != "" && color != "" && !NombreUsado(es, nombre) && ColorUsado(es, color)
    ensures r == Hecho <==> nombre != "" && color != "" && !NombreUsado(es, nombre) && !ColorUsado(es, color)
  {
    if nombre == "" || color == "" then CamposVacios
    else if NombreUsado(es, nombre) then NombreDuplicado
    else if ColorUsado(es, color) then ColorDuplicado
    else Hecho
  }

  /**
   * A company accepted by `agregarEmpresa`, with an id no company has, keeps
   * ids, colours and lower-cased names unique when appended, and every company
   * id that was listed still is.
   */
  lemma AltaConservaUnicidad(es: seq<Empresa>, e: Empresa)
    requires ValidarAlta(es, e.nombre, e.color) == Hecho && !ExisteEmpresa(es, e.id)
    ensures IdsUnicos(es) ==> IdsUnicos(es + [e])
    ensures ColoresUnicos(es) ==> ColoresUnicos(es + [e])
    ensures NombresUnicos(es) ==> NombresUnicos(es + [e])
    ensures NombresLlenos(es) ==> NombresLlenos(es + [e])
    ensures forall id :: ExisteEmpresa(es, id) ==> ExisteEmpresa(es + [e], id)
  {
    var r := es + [e];
    assert forall i :: 0 <= i < |es| ==> r[i] == es[i];
    forall id | ExisteEmpresa(es, id) ensures ExisteEmpresa(r, id) {
      var k :| 0 <= k < |es| && es[k].id == id;
      assert r[k].id == id;
    }
  }

  /** `state.empresas.filter(e => e.id !== id)`: every company but those with that id, in order. */
  function SinEmpresa(es: seq<Empresa>, id: string): (r: seq<Empresa>)
    ensures |r| <= |es|
    ensures forall e :: e in r <==> e in es && e.id != id
  {
    if es == [] then []
    else (if es[0].id != id then [es[0]] else []) + SinEmpresa(es[1..], id)
  }

  /** Filtering out an id that no company has returns the list unchanged. */
  lemma {:induction false} SinEmpresaAusente(es: seq<Empresa>, id: string)
    requires !ExisteEmpresa(es, id)
    ensures SinEmpresa(es, id) == es
  {
    if es != [] {
      assert es[0].id != id;
      assert !ExisteEmpresa(es[1..], id) by {
        forall k | 0 <= k < |es[1..]| ensures es[1..][k].id != id {
          assert es[1..][k] == es[k + 1];
        }
      }
      SinEmpresaAusente(es[1..], id);
      assert es == [es[0]] + es[1..];
    }
  }

  /**
   * With unique ids, `eliminarEmpresa`'s filter removes exactly the company at
   * position `k` and keeps the others in their order.
   */
  lemma {:induction false} SinEmpresaQuitaUna(es: seq<Empresa>, id: string, k: nat)
    requires IdsUnicos(es) && k < |es| && es[k].id == id
    ensures SinEmpresa(es, id) == es[..k] + es[k + 1..]
  {
    var tail := es[1..];
    assert IdsUnicos(tail) by {
      forall i, j | 0 <= i < j < |tail| ensures tail[i].id != tail[j].id {
        assert tail[i] == es[i + 1] && tail[j] == es[j + 1];
      }
    }
    if k == 0 {
      assert !ExisteEmpresa(tail, id) by {
        forall m | 0 <= m < |tail| ensures tail[m].id != id {
          assert tail[m] == es[m + 1];
        }
      }
      SinEmpresaAusente(tail, id);
    } else {
      assert es[0].id != id;
      assert tail[k - 1] == es[k];
      SinEmpresaQuitaUna(tail, id, k - 1);
      assert es[..k] == [es[0]] + tail[..k - 1];
      assert es[k + 1..] == tail[k..];
    }
  }

  /** Removing one company keeps ids, colours and lower-cased names unique. */
  lemma QuitarConservaUnicidad(es: seq<Empresa>, k: nat)
    requires k < |es|
    ensures IdsUnicos(es) ==> IdsUnicos(es[..k] + es[k + 1..])
    ensures ColoresUnicos(es) ==> ColoresUnicos(es[..k] + es[k + 1..])
    ensures NombresUnicos(es) ==> NombresUnicos(es[..k] + es[k + 1..])
    ensures NombresLlenos(es) ==> NombresLlenos(es[..k] + es[k + 1..])
  {
    var r := es[..k] + es[k + 1..];
    assert forall i :: 0 <= i < |r| ==> r[i] == es[if i < k then i else i + 1];
  }

  /** The list with company `k` renamed to `nombre`, everything else as it was. */
  function ConNombre(es: seq<Empresa>, k: nat, nombre: string): (r: seq<Empresa>)
    requires k < |es|
    ensures |r| == |es| && r[k].nombre == nombre
    ensures forall i :: 0 <= i < |es| ==> r[i].id == es[i].id && r[i].color == es[i].color
    ensures forall i :: 0 <= i < |es| && i != k ==> r[i] == es[i]
  {
    es[k := es[k].(nombre := nombre)]
  }

  /**
   * `editarEmpresa` on the company list, as written: an unknown id, a
   * cancelled or empty prompt, or a trimmed input equal to the current name
   * change nothing; a clash of the UNTRIMMED input with another company's name
   * is refused; otherwise the company's name becomes the trimmed input.
   */
  function Renombrar(es: seq<Empresa>, id: string, entrada: Option<string>): (r: Cambio)
    ensures r.resultado == NoEncontrada <==> !ExisteEmpresa(es, id)
    ensures r.resultado != Hecho ==> r.empresas == es
    ensures |r.empresas| == |es|
    ensures forall i :: 0 <= i < |es| ==> r.empresas[i].id == es[i].id && r.empresas[i].color == es[i].color
    ensures r.resultado == Hecho ==>
              && entrada.Some? && entrada.value != "" && !NombreUsadoPorOtra(es, id, entrada.value)
              && BuscarEmpresa(es, id).Some?
              && var k := BuscarEmpresa(es, id).value;
                 && Recortar(entrada.value) != es[k].nombre
                 && r.empresas[k].nombre == Recortar(entrada.value)
                 && forall i :: 0 <= i < |es| && i != k ==> r.empresas[i] == es[i]
    ensures BuscarEmpresa(es, id).Some? ==>
              var k := BuscarEmpresa(es, id).value;
              if entrada.Some? && entrada.value != "" && Recortar(entrada.value) != es[k].nombre then
                && (r.resultado == Hecho <==> !NombreUsadoPorOtra(es, id, entrada.value))
                && (r.resultado == NombreDuplicado <==> NombreUsadoPorOtra(es, id, entrada.value))
              else
                r.resultado == SinCambios
  {
    match BuscarEmpresa(es, id)
    case None => Cambio(NoEncontrada, es)
    case Some(k) =>
      if entrada.Some? && entrada.value != "" && Recortar(entrada.value) != es[k].nombre then
        if NombreUsadoPorOtra(es, id, entrada.value) then Cambio(NombreDuplicado, es)
        else Cambio(Hecho, ConNombre(es, k, Recortar(entrada.value)))
      else Cambio(SinCambios, es)
  }

  /** Renaming, as written, leaves ids and colours where they were, so both stay unique. */
  lemma RenombrarConservaIdsYColores(es: seq<Empresa>, id: string, entrada: Option<string>)
    ensures IdsUnicos(es) ==> IdsUnicos(Renombrar(es, id, entrada).empresas)
    ensures ColoresUnicos(es) ==> ColoresUnicos(Renombrar(es, id, entrada).empresas)
  {
  }

  /** Two companies with distinct names, ids and colours. */
  const DOS_EMPRESAS: seq<Empresa> := [Empresa("1", "Acme", "#1f78b4"), Empresa("2", "Beta", "#33a02c")]

  /**
   * The collision check of `editarEmpresa` runs on the untrimmed input while the
   * trimmed input is stored: renaming "Beta" to "acme " passes the check
   * ("acme " is not "acme") and leaves two companies named "Acme" and "acme".
   */
  lemma RenombrarDuplica()
    ensures NombresUnicos(DOS_EMPRESAS)
    ensures Renombrar(DOS_EMPRESAS, "2", Some("acme ")) == Cambio(Hecho, [DOS_EMPRESAS[0], Empresa("2", "acme", "#33a02c")])
    ensures !NombresUnicos(Renombrar(DOS_EMPRESAS, "2", Some("acme ")).empresas)
  {
    var es := DOS_EMPRESAS;
    DatosDeEjemplo();
    NombresDeEjemplo();
    RecortarAcme();
    AcmeNoEsBeta();
    SinChoqueSinRecortar();
    var nuevas := ConNombre(es, 1, "acme");
    assert Renombrar(es, "2", Some("acme ")) == Cambio(Hecho, nuevas);
    assert nuevas == [es[0], Empresa("2", "acme", "#33a02c")];
  }

  /** The input "acme " trims to "acme". */
  lemma RecortarAcme()
    ensures Recortar("acme ") == "acme"
  {
    var s := "acme ";
    assert PrimerNoBlanco(s, 0) == 0;
    assert FinSinBlancos(s, 0, 4) == 4;
    assert FinSinBlancos(s, 0, 5) == 4;
    assert s[0..4] == "acme";
  }

  /** "acme" is already lower-case and is not the name "Beta". */
  lemma AcmeNoEsBeta()
    ensures Minusculas("acme") == "acme"
    ensures "acme" != DOS_EMPRESAS[1].nombre
  {
    assert "acme"[0] != "Beta"[0];
  }

  /** Untrimmed, "acme " matches no other company's lower-cased name. */
  lemma SinChoqueSinRecortar()
    ensures !NombreUsadoPorOtra(DOS_EMPRESAS, "2", "acme ")
  {
    forall i | 0 <= i < |DOS_EMPRESAS|
      ensures !(DOS_EMPRESAS[i].id != "2" && Minusculas(DOS_EMPRESAS[i].nombre) == Minusculas("acme "))
    {
      if i == 0 {
        assert |Minusculas(DOS_EMPRESAS[0].nombre)| == 4;
        assert |Minusculas("acme ")| == 5;
      }
    }
  }

  /** The two sample companies have unique ids and names, and "2" is the second. */
  lemma DatosDeEjemplo()
    ensures IdsUnicos(DOS_EMPRESAS) && NombresUnicos(DOS_EMPRESAS)
    ensures BuscarEmpresa(DOS_EMPRESAS, "2") == Some(1)
  {
    NombresDeEjemplo();
    assert Minusculas("acme")[0] != Minusculas("beta")[0];
    BuscarEmpresaUnica(DOS_EMPRESAS, "2", 1);
  }

  /** The sample names lower-case letter by letter. */
  lemma NombresDeEjemplo()
    ensures Minusculas("Acme") == "acme" && Minusculas("Beta") == "beta"
  {
    assert MinusculaChar('A') == 'a' && MinusculaChar('B') == 'b';
  }

  /**
   * A prompt answered with blanks only is not empty, so `editarEmpresa` goes on
   * and stores the trimmed, empty name, a name `agregarEmpresa` would refuse.
   */
  lemma RenombrarVacio()
    ensures Renombrar(DOS_EMPRESAS, "2", Some("   ")) == Cambio(Hecho, [DOS_EMPRESAS[0], Empresa("2", "", "#33a02c")])
    ensures ValidarAlta([DOS_EMPRESAS[0]], "", "#33a02c") == CamposVacios
  {
    var es := DOS_EMPRESAS;
    DatosDeEjemplo();
    NombresDeEjemplo();
    RecortarBlancos();
    SinChoqueBlancos();
    var nuevas := ConNombre(es, 1, "");
    assert Renombrar(es, "2", Some("   ")) == Cambio(Hecho, nuevas);
    assert nuevas == [es[0], Empresa("2", "", "#33a02c")];
  }

  lemma RecortarBlancos()
    ensures Recortar("   ") == ""
  {
    var s := "   ";
    assert PrimerNoBlanco(s, 0) == PrimerNoBlanco(s, 1) == PrimerNoBlanco(s, 2) == PrimerNoBlanco(s, 3) == 3;
  }

  lemma SinChoqueBlancos()
    ensures !NombreUsadoPorOtra(DOS_EMPRESAS, "2", "   ")
  {
    assert |Minusculas("   ")| == 3;
    assert |Minusculas(DOS_EMPRESAS[0].nombre)| == 4;
  }

  /**
   * `editarEmpresa` with the checks `agregarEmpresa` makes: the trimmed input
   * must be non-empty, and it is the trimmed input that is compared with the
   * other companies' names.
   */
  function RenombrarCorregido(es: seq<Empresa>, id: string, entrada: Option<string>): (r: Cambio)
    ensures r.resultado == NoEncontrada <==> !ExisteEmpresa(es, id)
    ensures r.resultado != Hecho ==> r.empresas == es
    ensures |r.empresas| == |es|
    ensures forall i :: 0 <= i < |es| ==> r.empresas[i].id == es[i].id && r.empresas[i].color == es[i].color
    ensures r.resultado == Hecho ==>
              && entrada.Some? && Recortar(entrada.value) != ""
              && !NombreUsadoPorOtra(es, id, Recortar(entrada.value))
              && BuscarEmpresa(es, id).Some?
              && var k := BuscarEmpresa(es, id).value;
                 && r.empresas[k].nombre == Recortar(entrada.value)
                 && forall i :: 0 <= i < |es| && i != k ==> r.empresas[i] == es[i]
    ensures BuscarEmpresa(es, id).Some? ==>
              var k := BuscarEmpresa(es, id).value;
              if entrada.None? || entrada.value == "" then
                r.resultado == SinCambios
              else
                var n := Recortar(entrada.value);
                && (r.resultado == CamposVacios <==> n == "")
                && (n != "" && n == es[k].nombre ==> r.resultado == SinCambios)
                && (n != "" && n != es[k].nombre ==>
                      && (r.resultado == Hecho <==> !NombreUsadoPorOtra(es, id, n))
                      && (r.resultado == NombreDuplicado <==> NombreUsadoPorOtra(es, id, n)))
  {
    match BuscarEmpresa(es, id)
    case None => Cambio(NoEncontrada, es)
    case Some(k) =>
      if entrada.None? || entrada.value == "" then Cambio(SinCambios, es)
      else
        var n := Recortar(entrada.value);
        if n == "" then Cambio(CamposVacios, es)
        else if n == es[k].nombre then Cambio(SinCambios, es)
        else if NombreUsadoPorOtra(es, id, n) then Cambio(NombreDuplicado, es)
        else Cambio(Hecho, ConNombre(es, k, n))
  }

  /** The corrected renaming keeps lower-cased names unique. */
  lemma RenombrarCorregidoUnico(es: seq<Empresa>, id: string, entrada: Option<string>)
    requires IdsUnicos(es) && NombresUnicos(es)
    ensures NombresUnicos(RenombrarCorregido(es, id, entrada).empresas)
  {
    var r := RenombrarCorregido(es, id, entrada);
    if r.resultado == Hecho {
      var k := BuscarEmpresa(es, id).value;
      var n := Recortar(entrada.value);
      forall i, j | 0 <= i < j < |es|
        ensures Minusculas(r.empresas[i].nombre) != Minusculas(r.empresas[j].nombre)
      {
        if i == k {
          assert es[j].id != id;
          assert !(Minusculas(es[j].nombre) == Minusculas(n));
        } else if j == k {
          assert es[i].id != id;
          assert !(Minusculas(es[i].nombre) == Minusculas(n));
        }
      }
    }
  }

  /** The corrected renaming never gives a company an empty name. */
  lemma RenombrarCorregidoNoVacio(es: seq<Empresa>, id: string, entrada: Option<string>)
    requires NombresLlenos(es)
    ensures NombresLlenos(RenombrarCorregido(es, id, entrada).empresas)
  {
  }

  /**
   * The corrected renaming keeps ids and colours unique and every listed id
   * listed, and keeps lower-cased names unique and non-empty where they were.
   */
  lemma RenombrarCorregidoConserva(es: seq<Empresa>, id: string, entrada: Option<string>)
    requires IdsUnicos(es) && ColoresUnicos(es)
    ensures var r := RenombrarCorregido(es, id, entrada).empresas;
            && IdsUnicos(r) && ColoresUnicos(r)
            && (NombresUnicos(es) ==> NombresUnicos(r))
            && (NombresLlenos(es) ==> NombresLlenos(r))
            && forall otro :: ExisteEmpresa(es, otro) ==> ExisteEmpresa(r, otro)
  {
    var r := RenombrarCorregido(es, id, entrada).empresas;
    if NombresUnicos(es) {
      RenombrarCorregidoUnico(es, id, entrada);
    }
    if NombresLlenos(es) {
      RenombrarCorregidoNoVacio(es, id, entrada);
    }
    forall otro | ExisteEmpresa(es, otro) ensures ExisteEmpresa(r, otro) {
      MismosIds(es, r, otro);
    }
  }

  /**
   * Renaming as written keeps ids and colours unique and every listed id
   * listed; it can break unique or non-empty names (see `RenombrarDuplica`
   * and `RenombrarVacio`).
   */
  lemma RenombrarConserva(es: seq<Empresa>, id: string, entrada: Option<string>)
    requires IdsUnicos(es) && ColoresUnicos(es)
    ensures var r := Renombrar(es, id, entrada).empresas;
            && IdsUnicos(r) && ColoresUnicos(r)
            && forall otro :: ExisteEmpresa(es, otro) ==> ExisteEmpresa(r, otro)
  {
    var r := Renombrar(es, id, entrada).empresas;
    RenombrarConservaIdsYColores(es, id, entrada);
    forall otro | ExisteEmpresa(es, otro) ensures ExisteEmpresa(r, otro) {
      MismosIds(es, r, otro);
    }
  }

  /**
   * Deleting the company at position `k` from a list with unique ids keeps
   * ids unique, and keeps colours and lower-cased names unique and names
   * non-empty where they were.
   */
  lemma EliminarConservaUnicidad(es: seq<Empresa>, id: string, k: nat)
    requires IdsUnicos(es) && k < |es| && es[k].id == id
    ensures var r := SinEmpresa(es, id);
            && IdsUnicos(r)
            && (ColoresUnicos(es) ==> ColoresUnicos(r))
            && (NombresUnicos(es) ==> NombresUnicos(r))
            && (NombresLlenos(es) ==> NombresLlenos(r))
  {
    SinEmpresaQuitaUna(es, id, k);
    QuitarConservaUnicidad(es, k);
  }

  /** Filtering out one id keeps every other listed id listed. */
  lemma SinEmpresaConservaOtras(es: seq<Empresa>, id: string, otro: string)
    requires otro != id && ExisteEmpresa(es, otro)
    ensures ExisteEmpresa(SinEmpresa(es, id), otro)
  {
    var k :| 0 <= k < |es| && es[k].id == otro;
    var r := SinEmpresa(es, id);
    assert es[k] in r;
    var j :| 0 <= j < |r| && r[j] == es[k];
  }

  /** A list with the same id at every position names the same companies. */
  lemma MismosIds(es: seq<Empresa>, es2: seq<Empresa>, id: string)
    requires |es2| == |es| && forall i :: 0 <= i < |es| ==> es2[i].id == es[i].id
    requires ExisteEmpresa(es, id)
    ensures ExisteEmpresa(es2, id)
  {
    var k :| 0 <= k < |es| && es[k].id == id;
    assert es2[k].id == id;
  }

  /**
   * Deleting a company together with its seat assignments keeps referential
   * integrity: every seat still holding an id held one that was not deleted.
   */
  lemma EliminarConservaIntegridad(ps: seq<Puesto>, es: seq<Empresa>, id: string)
    requires Referenciados(ps, es)
    ensures Referenciados(Desasignados(ps, id), SinEmpresa(es, id))
  {
    var r := Desasignados(ps, id);
    forall m | 0 <= m < |r| && r[m].empresaId.Some?
      ensures ExisteEmpresa(SinEmpresa(es, id), r[m].empresaId.value)
    {
      assert r[m] == ps[m];
      SinEmpresaConservaOtras(es, id, r[m].empresaId.value);
    }
  }
}
