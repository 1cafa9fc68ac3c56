/** E-mail templates (src/controllers/emailTemplateController.js, src/models/EmailTemplate.js).
    Templates are soft-deleted: an inactive template is invisible to every handler but
    still holds its name, which the unique index keeps distinct. */
module EmailTemplates {
  import opened Base
  import opened Query

  datatype Template = Template(
    id: Oid,
    nombre: string,
    tipo: Oid,
    asunto: string,
    contenidoHtml: string,
    contenidoTexto: string,
    variables: seq<string>,
    activo: bool,
    creadoPor: Oid,
    actualizadoPor: Option<Oid>)

  /** The fields of an update request after trimming: "" and None stand for a field
      that was not sent or is falsy (an array that was sent is truthy even when empty). */
  datatype TemplatePatch = TemplatePatch(
    nombre: string,
    tipo: Option<Oid>,
    asunto: string,
    contenidoHtml: string,
    contenidoTexto: string,
    variables: Option<seq<string>>)

  class TemplateStore {
    var templates: seq<Template>
    var nextId: Oid

    constructor ()
      ensures templates == [] && nextId == 0
    {
      templates := [];
      nextId := 0;
    }
  }

  /** The unique index on `nombre`. */
  predicate UniqueNames(ts: seq<Template>) {
    forall i, j :: 0 <= i < j < |ts| ==> ts[i].nombre != ts[j].nombre
  }

  function ByName(ts: seq<Template>, nombre: string): Option<nat> {
    FindFirst(ts, (t: Template) => t.nombre == nombre)
  }

  /** `findById(id)` followed by the `activo` test: inactive templates are not found. */
  function ActiveById(ts: seq<Template>, id: Oid): (r: Option<nat>)
    ensures r.Some? ==> r.value < |ts| && ts[r.value].id == id && ts[r.value].activo
    ensures r.None? ==> forall j :: 0 <= j < |ts| && ts[j].id == id ==> !ts[j].activo || exists i :: 0 <= i < j && ts[i].id == id
  {
    match FindFirst(ts, (t: Template) => t.id == id)
    case None => None
    case Some(i) => if ts[i].activo then Some(i) else None
  }

  /** `getAllEmailTemplates`: exactly the active templates. */
  function GetAllEmailTemplates(ts: seq<Template>): (r: seq<Template>)
    ensures forall k :: 0 <= k < |r| ==> r[k] in ts && r[k].activo
    ensures forall j :: 0 <= j < |ts| && ts[j].activo ==> ts[j] in r
  {
    Filter(ts, (t: Template) => t.activo)
  }

  /** `getEmailTemplateById`. */
  function GetEmailTemplateById(ts: seq<Template>, id: Oid): (r: Option<Template>)
    ensures r.Some? ==> r.value in ts && r.value.id == id && r.value.activo
    ensures r.None? <==> ActiveById(ts, id).None?
  {
    match ActiveById(ts, id)
    case None => None
    case Some(i) => Some(ts[i])
  }

  /** A template after an update by `requester`: truthy fields overwrite, and the
      updater is always recorded. */
  function Patched(t: Template, patch: TemplatePatch, requester: Option<Oid>): (r: Template)
    ensures r.nombre == (if Truthy(patch.nombre) then patch.nombre else t.nombre)
    ensures r.asunto == (if Truthy(patch.asunto) then patch.asunto else t.asunto)
    ensures r.contenidoHtml == (if Truthy(patch.contenidoHtml) then patch.contenidoHtml else t.contenidoHtml)
    ensures r.contenidoTexto == (if Truthy(patch.contenidoTexto) then patch.contenidoTexto else t.contenidoTexto)
    ensures r.tipo == (if patch.tipo.Some? then patch.tipo.value else t.tipo)
    ensures r.variables == (if patch.variables.Some? then patch.variables.value else t.variables)
    ensures r.actualizadoPor == requester
    ensures r.id == t.id && r.activo == t.activo && r.creadoPor == t.creadoPor
  {
    t.(nombre := if Truthy(patch.nombre) then patch.nombre else t.nombre,
       tipo := if patch.tipo.Some? then patch.tipo.value else t.tipo,
       asunto := if Truthy(patch.asunto) then patch.asunto else t.asunto,
       contenidoHtml := if Truthy(patch.contenidoHtml) then patch.contenidoHtml else t.contenidoHtml,
       contenidoTexto := if Truthy(patch.contenidoTexto) then patch.contenidoTexto else t.contenidoTexto,
       variables := if patch.variables.Some? then patch.variables.value else t.variables,
       actualizadoPor := requester)
  }

  /** Applying the same update twice is the same as applying it once. */
  lemma PatchIsIdempotent(t: Template, patch: TemplatePatch, requester: Option<Oid>)
    ensures Patched(Patched(t, patch, requester), patch, requester) == Patched(t, patch, requester)
  {
  }

  /** Whether renaming template `i` to `nombre` collides with another template. */
  predicate NameTakenByOther(ts: seq<Template>, i: nat, nombre: string) {
    exists j :: 0 <= j < |ts| && j != i && ts[j].nombre == nombre
  }

  /** `createEmailTemplate`: 400 for an invalid body or a name already used by any
      template, active or not; without a requesting user id the required `creado_por`
      fails (500); otherwise an active template created by the requester (201). */
  method CreateEmailTemplate(store: TemplateStore, valid: bool, nombre: string, tipo: Oid, asunto: string,
                             contenidoHtml: string, contenidoTexto: string, variables: seq<string>,
                             requester: Option<Oid>)
    returns (status: int)
    modifies store
    ensures !valid ==> status == 400
    ensures valid && ByName(old(store.templates), nombre).Some? ==> status == 400
    ensures valid && ByName(old(store.templates), nombre).None? && requester.None? ==> status == 500
    ensures status != 201 ==> store.templates == old(store.templates) && store.nextId == old(store.nextId)
    ensures status == 201 <==> valid && ByName(old(store.templates), nombre).None? && requester.Some?
    ensures status == 201 ==>
      store.templates == old(store.templates)
        + [Template(old(store.nextId), nombre, tipo, asunto, contenidoHtml, contenidoTexto, variables, true, requester.value, None)]
      && store.nextId == old(store.nextId) + 1
    ensures UniqueNames(old(store.templates)) ==> UniqueNames(store.templates)
  {
    if !valid {
      return 400;
    }
    if ByName(store.templates, nombre).Some? {
      return 400;
    }
    if requester.None? {
      return 500;
    }
    store.templates := store.templates
      + [Template(store.nextId, nombre, tipo, asunto, contenidoHtml, contenidoTexto, variables, true, requester.value, None)];
    store.nextId := store.nextId + 1;
    status := 201;
  }

  /** `updateEmailTemplate` (it never consults the validation result): 404 for an
      unknown or inactive template; a new name held by another template violates the
      unique index (500); otherwise the patch is saved (200). */
  method UpdateEmailTemplate(store: TemplateStore, id: Oid, patch: TemplatePatch, requester: Option<Oid>)
    returns (status: int)
    modifies store
    ensures store.nextId == old(store.nextId)
    ensures ActiveById(old(store.templates), id).None? ==> status == 404 && store.templates == old(store.templates)
    ensures ActiveById(old(store.templates), id).Some? ==>
      var i := ActiveById(old(store.templates), id).value;
      var r := Patched(old(store.templates)[i], patch, requester);
      if NameTakenByOther(old(store.templates), i, r.nombre) then
        status == 500 && store.templates == old(store.templates)
      else
        status == 200 && store.templates == old(store.templates)[i := r]
    ensures UniqueNames(old(store.templates)) ==> UniqueNames(store.templates)
  {
    var found := ActiveById(store.templates, id);
    if found.None? {
      return 404;
    }
    var i := found.value;
    var r := Patched(store.templates[i], patch, requester);
    if NameTakenByOther(store.templates, i, r.nombre) {
      return 500;
    }
    store.templates := store.templates[i := r];
    status := 200;
  }

  /** `deleteEmailTemplate`: 404 for an unknown or inactive template; otherwise it is
      deactivated and the deleter recorded. */
  method DeleteEmailTemplate(store: TemplateStore, id: Oid, requester: Option<Oid>) returns (status: int)
    modifies store
    ensures store.nextId == old(store.nextId)
    ensures ActiveById(old(store.templates), id).None? ==> status == 404 && store.templates == old(store.templates)
    ensures ActiveById(old(store.templates), id).Some? ==>
      var i := ActiveById(old(store.templates), id).value;
      status == 200 && store.templates == old(store.templates)[i := old(store.templates)[i].(activo := false, actualizadoPor := requester)]
  {
    var found := ActiveById(store.templates, id);
    if found.None? {
      return 404;
    }
    var i := found.value;
    store.templates := store.templates[i := store.templates[i].(activo := false, actualizadoPor := requester)];
    status := 200;
  }

  /** After a deletion the template is not found any more, so deleting it again gives
      404, and the listing no longer holds it. */
  lemma DeletedTemplateIsGone(ts: seq<Template>, id: Oid, requester: Option<Oid>)
    requires ActiveById(ts, id).Some?
    ensures var i := ActiveById(ts, id).value;
      var after := ts[i := ts[i].(activo := false, actualizadoPor := requester)];
      ActiveById(after, id).None? && GetEmailTemplateById(after, id).None?
  {
    var i := ActiveById(ts, id).value;
    var after := ts[i := ts[i].(activo := false, actualizadoPor := requester)];
    assert FindFirst(ts, (t: Template) => t.id == id) == Some(i);
    assert forall j :: 0 <= j < |after| ==> after[j].id == ts[j].id;
    assert FindFirst(after, (t: Template) => t.id == id) == Some(i);
  }
}
