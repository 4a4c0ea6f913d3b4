# Hubux seat engine in Dafny

Hubux is a single-page tool for handing out the seats of an office floor plan
to companies. Its whole engine lives in `src/app.js` and works on one in-memory
`state` made of three parts:

- a fixed catalog of ten seats (`puestos`), each with a category (`GERENCIAL`,
  `PIZZAS`, `ESTÁNDAR`), a shape, an optional company id and an `ocupado` flag;
- the list of companies (`empresas`), each with an id, a name and a colour;
- the seat a click selected (`puestoSeleccionado`).

This project models that engine and proves properties of it.

- **Hit testing.** A click is hit-tested against the seat shapes, and the first
  seat hit opens the assignment dialog.
  - Polygon seats use ray casting with an epsilon-guarded division.
  - Every other shape counts as a disc of radius `size / 2 + 5`.
- **Mutations.** Assigning and freeing a seat, adding, renaming and deleting
  companies (deletion frees the company's seats), and resetting everything.
- **Projections.** The company table, the general summary per category and
  the colour each seat is painted in.

Modules follow that structure:

| module | file | contents |
|---|---|---|
| `Wrappers` | `wrappers.dfy` | `Option` |
| `Texto` | `texto.dfy` | JavaScript `trim` and `toLowerCase` on strings |
| `Geometria` | `geometria.dfy` | `puntoEnPoligono` and the disc test, over `real` |
| `Puestos` | `puestos.dfy` | the seat record, the catalog, the click `find`, seat updates |
| `Empresas` | `empresas.dfy` | the company record, lookups, validation, deletion filter, renaming |
| `Resumen` | `resumen.dfy` | `actualizarTablaEmpresas` and `actualizarResumenGeneral` |
| `Dibujo` | `dibujo.dfy` | the fill colour of `dibujarPuestos` |
| `Aplicacion` | `aplicacion.dfy` | class `Estado`: the state and every operation that changes it |

`Aplicacion.Estado` keeps the state as fields:

- `puestos` and `empresas` as sequences;
- the selected seat as an index into `puestos`. The seat list never changes
  length, so the index always names the same object the code holds.

Every method keeps the invariant `Valid()`:

- a seat is `ocupado` exactly when it holds a company id;
- no seat holds the empty id;
- company ids and colours are unique.

Unique lower-cased names and non-empty names are stated separately as
`NombresValidos()`. `agregarEmpresa` checks both, but `editarEmpresa` as
written can break both (see Findings). So `EditarEmpresa`, the renaming as
written, promises only `Valid()`. Every other method keeps `NombresValidos()`,
and so does `EditarEmpresaCorregida`, the renaming with the trimmed name
checked.

Referential integrity (every id a seat holds names a listed company) is stated
separately as `Integro()`. `asignarPuesto` does not check that the chosen
company exists, so that method keeps integrity only when the company does
exist. Every other method keeps it unconditionally.

The environment becomes parameters:

- the answers to `confirm` become `bool` parameters;
- the answer to `prompt` becomes an `Option<string>` (`None` for Cancel);
- the company chosen in the select becomes a string;
- the click position becomes two reals;
- the id `Date.now()` produces becomes a parameter that must not be in use;
- `alert` messages become `Resultado` values.

Two behaviours of the code are worth stating outright:

- **Assigning to an unknown company.** `asignarPuesto` refuses only an empty
  id (src/app.js:291-294). It never looks the id up in `state.empresas`, so
  `AsignarPuesto` accepts any non-empty id.
- **Start-up.** `cargarDatos` restores both the companies and the seats from
  storage (src/app.js:606-615). Right after it, start-up calls
  `generarPuestos` (src/app.js:28-29), which replaces the seats with the
  catalog. So the restored companies survive and the restored seats do not.
  The constructor takes the restored companies as a parameter and builds the
  catalog with every seat free.

## Model

| member | source | states |
|---|---|---|
| Texto.EsBlanco | src/app.js:327 | definition: the characters `trim` removes, the ECMAScript WhiteSpace and LineTerminator characters; `Recortar` and `RecortarVacio` state what removing them gives |
| Texto.PrimerNoBlanco | src/app.js:327 | the position found is the first one at or after the start that does not hold a blank, or the end |
| Texto.FinSinBlancos | src/app.js:327 | the end found is the last one before which only blanks were dropped, and the character before it is not blank |
| Texto.Recortar | src/app.js:327 | `trim`: the result is a slice of the input with only blanks cut off both ends, and it neither starts nor ends with a blank |
| Texto.RecortarIdempotente | src/app.js:393 | trimming a trimmed string changes nothing |
| Texto.RecortarVacio | src/app.js:330-333 | a string trims to empty exactly when every character is blank, so `agregarEmpresa` rejects blank-only names |
| Texto.Minusculas | src/app.js:336 | `toLowerCase` keeps the length and lower-cases each character |
| Texto.MinusculasIdempotente | src/app.js:336 | lower-casing twice is lower-casing once |
| Geometria.Cruza | src/app.js:202-203 | definition: the edge test `intersect`, the edge straddles the ray's height and the point lies left of the epsilon-shifted crossing; `SinCrucesFueraDeFranja` proves no edge is crossed outside the vertical extent, and `PuntoEnPoligono` that the loop counts these crossings |
| Geometria.PuntoEnPoligono | src/app.js:196-207 | the loop answers true exactly when the ray from the point crosses an odd number of edges (i, i - 1), the first edge wrapping round to the last vertex; an edge is crossed when it straddles the ray's height and the point lies left of the epsilon-shifted intersection, with JavaScript's ±Infinity/NaN outcome for a zero denominator |
| Geometria.SinCrucesFueraDeFranja | src/app.js:202 | no edge is crossed by a ray strictly below, or on or above, every vertex |
| Geometria.FueraDeFranja | src/app.js:196-207 | a point outside the polygon's vertical extent is not inside it |
| Geometria.EnDisco | src/app.js:216-219 | definition: the disc test, as a squared distance against the squared radius `size/2 + 5`; `EnDiscoSegunDistancia` proves it agrees with the square-root form and `LejosNoGolpea` bounds it along each axis |
| Geometria.EnDiscoSegunDistancia | src/app.js:216-219 | the squared disc test agrees with `Math.sqrt(dx*dx + dy*dy) <= size/2 + 5` for the non-negative root |
| Geometria.LejosNoGolpea | src/app.js:216-219 | a click farther than the radius along either axis misses the seat |
| Puestos.Golpea | src/app.js:215-224 | definition: the predicate given to `find`, the polygon test for a polygon seat and the disc test for any other shape; `RadioDeClic`, `HexagonoDeEjemplo` and `QuintoOculto` exercise it and `BuscarPuesto` uses it |
| Puestos.BuscarPuesto | src/app.js:215-224 | the click `find`: the first seat in list order that is hit, or none exactly when no seat is hit |
| Puestos.GenerarPuestos | src/app.js:100-127 | `generarPuestos`: the catalog has ten seats with ids 1 to 10 in order, all of known category and all free |
| Puestos.RadioDeClic | src/app.js:216-219 | seat 1 (centre (100, 80), size 20) is hit at (110, 80) and missed at (118, 80) |
| Puestos.ClicsDeEjemplo | src/app.js:215-224 | on the catalog a click at (110, 80) selects seat 1 and one at (118, 80) selects nothing |
| Puestos.HexagonoDeEjemplo | src/app.js:112-125 | seat 10's hexagon contains (320, 190) and not (0, 0) |
| Puestos.QuintoOculto | src/app.js:106-107 | seat 5 has seat 4's centre and size, so no click selects seat 5 |
| Puestos.AsignadoA | src/app.js:297-298 | an assigned seat holds the new company and is occupied, whatever it held before; id, category and shape are kept |
| Puestos.Liberado | src/app.js:309-310 | a freed seat holds no company and is not occupied; id, category and shape are kept |
| Puestos.LiberadoIdempotente | src/app.js:307-310 | freeing a seat twice is freeing it once |
| Puestos.DeEmpresa | src/app.js:411 | the filter returns seats of the list, all held by that company, and every seat that company holds |
| Puestos.Desasignados | src/app.js:419-422 | after the cascade the company's seats are free, no seat keeps the id, other seats are unchanged, and ids, categories and shapes are kept |
| Puestos.DesasignadosSinPuestos | src/app.js:413-423 | when the company holds no seat, the cascade leaves every seat as it was |
| Puestos.TodosLibres | src/app.js:492-495 | after the reset every seat is free, and ids, categories and shapes are kept |
| Empresas.BuscarEmpresa | src/app.js:389 | the `find` by id gives the first company with that id, or none exactly when no company has it |
| Empresas.BuscarEmpresaUnica | src/app.js:389 | with unique ids, the company found is the one with that id |
| Empresas.NombreUsado | src/app.js:336 | definition: some listed company's lower-cased name equals the lower-cased name; `ValidarAlta` and `AltaConservaUnicidad` use it |
| Empresas.ColorUsado | src/app.js:341 | definition: some listed company has exactly that colour; `ValidarAlta` and `AltaConservaUnicidad` use it |
| Empresas.NombreUsadoPorOtra | src/app.js:394 | definition: some company with a different id has the same lower-cased name; `Renombrar`, `RenombrarCorregido` and `RenombrarCorregidoUnico` state what the renaming does with it |
| Empresas.ValidarAlta | src/app.js:330-344 | the checks in the code's order: `CamposVacios` exactly when the name or the colour is empty; `NombreDuplicado` exactly when both are filled and the lower-cased name is in use; `ColorDuplicado` exactly when both are filled, the name is free and the colour is in use; `Hecho` exactly when every check passes |
| Empresas.AltaConservaUnicidad | src/app.js:336-353 | appending an accepted company with a fresh id keeps ids, colours and names unique, names non-empty, and every listed id listed |
| Empresas.SinEmpresa | src/app.js:426 | the delete filter keeps exactly the companies of the list whose id differs |
| Empresas.SinEmpresaAusente | src/app.js:426 | filtering out an id nobody has leaves the list as it was |
| Empresas.SinEmpresaQuitaUna | src/app.js:426 | with unique ids the filter removes exactly the company found and keeps the rest in order |
| Empresas.QuitarConservaUnicidad | src/app.js:426 | removing one company keeps ids, colours and names unique and names non-empty |
| Empresas.EliminarConservaUnicidad | src/app.js:426 | deleting a company keeps ids unique, and colours unique, names unique and names non-empty whenever they were before |
| Empresas.SinEmpresaConservaOtras | src/app.js:426 | the filter keeps every other listed id listed |
| Empresas.EliminarConservaIntegridad | src/app.js:411-426 | deleting a company together with its assignments keeps referential integrity |
| Empresas.ConNombre | src/app.js:399 | renaming in place changes only that company's name; ids and colours stay where they were |
| Empresas.MismosIds | src/app.js:399 | a list with the same id at every position lists the same ids |
| Empresas.Renombrar | src/app.js:388-404 | `editarEmpresa` as written: unknown id, cancelled or empty prompt, or unchanged trimmed name give no change; a clash of the untrimmed input with another company's name is refused; otherwise only that company's name becomes the trimmed input; conversely, for a listed id with a changed non-empty answer the result is `Hecho` exactly when no other company has the untrimmed name, and `NombreDuplicado` exactly when one has |
| Empresas.RenombrarConservaIdsYColores | src/app.js:399 | renaming as written keeps ids and colours unique |
| Empresas.RenombrarConserva | src/app.js:388-404 | renaming as written keeps ids and colours unique and every listed id listed |
| Empresas.RenombrarDuplica | src/app.js:394-399 | as written, renaming "Beta" to "acme " beside "Acme" is accepted, and the names are no longer unique |
| Empresas.RenombrarVacio | src/app.js:393-399 | as written, a blank-only answer stores the empty name, which `agregarEmpresa` would refuse |
| Empresas.RenombrarCorregido | src/app.js:388-404 | renaming with the trimmed input checked: for a listed id, a cancelled or empty answer gives `SinCambios`; otherwise the result is `CamposVacios` exactly when the trimmed input is empty, `SinCambios` when it equals the current name, and for a changed name `Hecho` exactly when no other company has it and `NombreDuplicado` exactly when one has; only on `Hecho` does that company's name become the trimmed input |
| Empresas.RenombrarCorregidoUnico | src/app.js:394-399 | the corrected renaming keeps lower-cased names unique |
| Empresas.RenombrarCorregidoNoVacio | src/app.js:393-399 | the corrected renaming never stores an empty name |
| Empresas.RenombrarCorregidoConserva | src/app.js:388-404 | the corrected renaming keeps ids and colours unique and every listed id listed; it keeps names unique, and names non-empty, whenever they were before |
| Resumen.Contar | src/app.js:471 | the seats of a category are never more than all seats |
| Resumen.ContarOcupados | src/app.js:472 | the occupied seats of a category are never more than that category's seats |
| Resumen.SumaPorTipos | src/app.js:470-482 | when every category is known, the category totals add up to the seat count and the occupied counts to the occupied seats |
| Resumen.FilaEmpresa | src/app.js:444-450 | definition: a company row counts, per category, the seats the company holds and adds the three; `FilaCuentaSusPuestos` proves that, with every category known, the total is the number of its seats |
| Resumen.FilaCuentaSusPuestos | src/app.js:444-450 | a company row shows its name and colour, and its total equals the number of seats the company holds |
| Resumen.TablaEmpresas | src/app.js:440-463 | the company table has one row per company, in list order |
| Resumen.AsignadosConUnaMas | src/app.js:444-450 | a company with a new id adds exactly its own seats to the assigned count |
| Resumen.SumaDeFilas | src/app.js:440-463 | with unique ids, the row totals add up to the seats held by listed companies |
| Resumen.AsignadosSonOcupados | src/app.js:297-298 | in a consistent, referentially intact state the seats held by listed companies are the occupied seats |
| Resumen.TablasCuadran | src/app.js:440-486 | the company table and the general summary agree on the number of occupied seats |
| Resumen.ActualizarResumenGeneral | src/app.js:465-487 | per category in order: total, occupied and available = total - occupied (never negative); the grand totals are sums over the three; with known categories the grand total is the seat count and the grand occupied figure the occupied seats |
| Dibujo.ColorRelleno | src/app.js:140-145 | a seat that is free or has an empty id is white, one whose company is not listed is white, and any other colour is the colour of a company with the seat's id; the converse, that an occupied seat of a listed company gets that company's colour, is proved in `ColorDeSuEmpresa` under unique ids |
| Dibujo.ColorDeSuEmpresa | src/app.js:140-142 | with unique ids an occupied seat is painted in its own company's colour |
| Dibujo.BlancoSiiLibre | src/app.js:140-145 | in a consistent state where no company chose white, a seat is white exactly when it is free |
| Aplicacion.Estado.constructor | src/app.js:25-30 | start-up keeps the restored companies, builds the catalog with every seat free and selects nothing; the state is valid when the restored ids and colours are unique, keeps `NombresValidos()` when the restored names are unique and non-empty, and is always referentially intact |
| Aplicacion.Estado.HandleCanvasClick | src/app.js:209-229 | the first seat hit becomes the selection; a click hitting nothing keeps the selection |
| Aplicacion.Estado.CerrarModal | src/app.js:319-322 | the selection is dropped |
| Aplicacion.Estado.AsignarPuesto | src/app.js:288-305 | the empty id changes nothing; with a selection only the selected seat takes the company and the selection closes; without one nothing changes; validity is kept, and integrity when the company exists |
| Aplicacion.Estado.DesasignarPuesto | src/app.js:307-317 | only the selected seat is freed and the selection closes; without a selection nothing changes; validity and integrity are kept |
| Aplicacion.Estado.AgregarEmpresa | src/app.js:324-362 | the result is the validation of the trimmed name and colour; on success exactly that company is appended, otherwise the list is unchanged; validity, integrity and `NombresValidos()` are kept |
| Aplicacion.Estado.EditarEmpresa | src/app.js:388-404 | as written: the result and the new list are those of `Renombrar`; validity (ids and colours unique) and integrity are kept |
| Aplicacion.Estado.EditarEmpresaCorregida | src/app.js:388-404 | the corrected renaming: the result and the new list are those of `RenombrarCorregido`; validity, integrity and `NombresValidos()` are kept |
| Aplicacion.Estado.LiberarPuestosDe | src/app.js:419-422 | the loop frees every seat of the company and leaves the others alone |
| Aplicacion.Estado.EliminarEmpresa | src/app.js:406-433 | unknown id, or a declined confirmation when seats are held, changes nothing; otherwise the company's seats are freed, other seats unchanged, and the company is filtered out; validity, integrity and `NombresValidos()` are kept |
| Aplicacion.Estado.LimpiarTodo | src/app.js:489-502 | when confirmed there are no companies and every seat is free with its id, category and shape; otherwise nothing changes; integrity and `NombresValidos()` hold afterwards when confirmed and are kept otherwise |

## Left out

- DOM and canvas work: `initializeApp`, `resizeCanvas`, `setupEventListeners`,
  the drawing calls of `dibujarPuestos` other than the fill colour, the modal's
  display toggling, `actualizarListaEmpresas` and `actualizarSelectEmpresas`. These
  only produce output.
- The hover test `handleCanvasHover`: it only sets a tooltip.
- `generarPDF`: a call into a PDF library; its counts repeat the company table.
- `guardarDatos` and `cargarDatos`: browser storage and JSON parsing. The
  companies `cargarDatos` restores become the constructor's parameter, and the
  seats it restores are replaced by the catalog, as at start-up.
- Dialogs, the clock and the click position are parameters, as described above.
- Geometria.PuntoEnPoligono: computes over exact reals, not IEEE doubles, so it
  claims no agreement with JavaScript rounding. A zero denominator follows
  JavaScript's Infinity/NaN rules.
- Texto.Minusculas: maps only ASCII and Latin-1 capitals. JavaScript's full
  Unicode case mapping is not modelled.
- Malformed seat records (an unknown `forma`, a polygon without `puntos`) cannot
  arise from the catalog, so `Forma` has no case for them.
- Aplicacion.Estado.LiberarPuestosDe: the code runs its loop over the filtered
  list of seat objects, which alias the seats in `state.puestos`. The model
  walks `puestos` by index instead, with the same effect.
- Aplicacion.Estado.EditarEmpresa: follows the code as written, so it does not
  promise `NombresValidos()`; see Findings. `EditarEmpresaCorregida` is the
  corrected renaming.

## Findings

| source | as written | input that shows it | evidently intended | confidence | as-written member | corrected member |
|---|---|---|---|---|---|---|
| src/app.js:394-399 | `editarEmpresa` compares the untrimmed input with the other names but stores the trimmed input | companies "Acme" and "Beta"; rename "Beta" with "acme " | the stored (trimmed) name is what must not clash, as in `agregarEmpresa` | not executed | Empresas.RenombrarDuplica | Empresas.RenombrarCorregidoUnico |
| src/app.js:393-399 | a non-empty input made only of blanks passes `nuevoNombre &&` and is stored trimmed, as the empty name | rename "Beta" with "   " | a blank-only name is refused, as `agregarEmpresa` refuses it | not executed | Empresas.RenombrarVacio | Empresas.RenombrarCorregidoNoVacio |
