/** E-mail types (src/controllers/emailTypeController.js, src/models/EmailType.js).
    Unlike templates, an inactive type is still found by id and can still be updated;
    only the listing hides it. */
module EmailTypes {
  import opened Base
  import opened Query

  datatype EmailType = EmailType(
    id: Oid,
    codigo: string,
    nombre: string,
    descripcion: Option<string>,
    variablesRequeridas: seq<string>,
    activo: bool,
    creadoPor: Oid)

  /** The fields of an update body; None is a field the body leaves out. The body's
      `actualizado_por` is not in the schema and is dropped by strict mode. */
  datatype TypePatch = TypePatch(
    codigo: Option<string>,
    nombre: Option<string>,
    descripcion: Option<string>,
    variablesRequeridas: Option<seq<string>>)

  class TypeStore {
    var types: seq<EmailType>
    var nextId: Oid

    constructor ()
      ensures types == [] && nextId == 0
    {
      types := [];
      nextId := 0;
    }
  }

  /** The unique index on `codigo`. */
  predicate UniqueCodes(ts: seq<EmailType>) {
    forall i, j :: 0 <= i < j < |ts| ==> ts[i].codigo != ts[j].codigo
  }

  function ByCode(ts: seq<EmailType>, codigo: string): Option<nat> {
    FindFirst(ts, (t: EmailType) => t.codigo == codigo)
  }

  function ById(ts: seq<EmailType>, id: Oid): Option<nat> {
    FindFirst(ts, (t: EmailType) => t.id == id)
  }

  /** `getEmailTypeById`: found whatever its `activo`. */
  function GetEmailTypeById(ts: seq<EmailType>, id: Oid): (r: Option<EmailType>)
    ensures r.Some? ==> r.value in ts && r.value.id == id
    ensures r.None? <==> forall j :: 0 <= j < |ts| ==> ts[j].id != id
  {
    match ById(ts, id)
    case None => None
    case Some(i) => Some(ts[i])
  }

  /** `getAllEmailTypes`: exactly the active types. */
  function GetAllEmailTypes(ts: seq<EmailType>): (r: seq<EmailType>)
    ensures forall k :: 0 <= k < |r| ==> r[k] in ts && r[k].activo
    ensures forall j :: 0 <= j < |ts| && ts[j].activo ==> ts[j] in r
  {
    Filter(ts, (t: EmailType) => t.activo)
  }

  /** `findByIdAndUpdate` with the body's fields: the fields it carries overwrite. */
  function Overwritten(t: EmailType, patch: TypePatch): (r: EmailType)
    ensures patch.codigo.Some? ==> r.codigo == patch.codigo.value
    ensures patch.codigo.None? ==> r.codigo == t.codigo
    ensures patch.nombre.Some? ==> r.nombre == patch.nombre.value
    ensures patch.nombre.None? ==> r.nombre == t.nombre
    ensures r.descripcion == if patch.descripcion.Some? then patch.descripcion else t.descripcion
    ensures r.variablesRequeridas == if patch.variablesRequeridas.Some? then patch.variablesRequeridas.value else t.variablesRequeridas
    ensures r.id == t.id && r.activo == t.activo && r.creadoPor == t.creadoPor
  {
    t.(codigo := if patch.codigo.Some? then patch.codigo.value else t.codigo,
       nombre := if patch.nombre.Some? then patch.nombre.value else t.nombre,
       descripcion := if patch.descripcion.Some? then patch.descripcion else t.descripcion,
       variablesRequeridas := if patch.variablesRequeridas.Some? then patch.variablesRequeridas.value else t.variablesRequeridas)
  }

  /** The later of two updates wins on every field it carries. */
  lemma LaterOverwriteWins(t: EmailType, p: TypePatch, q: TypePatch)
    requires q.codigo.Some? && q.nombre.Some? && q.descripcion.Some? && q.variablesRequeridas.Some?
    ensures Overwritten(Overwritten(t, p), q) == Overwritten(t, q)
  {
  }

  /** `createEmailType`: 400 for an invalid body, then 401 without an authenticated
      user id, then 400 for a code any type already has; otherwise an active type
      created by the requester (201). */
  method CreateEmailType(store: TypeStore, valid: bool, codigo: string, nombre: string, descripcion: Option<string>,
                         variablesRequeridas: seq<string>, requester: Option<Oid>)
    returns (status: int)
    modifies store
    ensures !valid ==> status == 400
    ensures valid && requester.None? ==> status == 401
    ensures valid && requester.Some? && ByCode(old(store.types), codigo).Some? ==> status == 400
    ensures status == 201 <==> valid && requester.Some? && ByCode(old(store.types), codigo).None?
    ensures status != 201 ==> store.types == old(store.types) && store.nextId == old(store.nextId)
    ensures status == 201 ==>
      store.types == old(store.types)
        + [EmailType(old(store.nextId), codigo, nombre, descripcion, variablesRequeridas, true, requester.value)]
      && store.nextId == old(store.nextId) + 1
    ensures UniqueCodes(old(store.types)) ==> UniqueCodes(store.types)
  {
    if !valid {
      return 400;
    }
    if requester.None? {
      return 401;
    }
    if ByCode(store.types, codigo).Some? {
      return 400;
    }
    store.types := store.types + [EmailType(store.nextId, codigo, nombre, descripcion, variablesRequeridas, true, requester.value)];
    store.nextId := store.nextId + 1;
    status := 201;
  }

  /** Whether giving type `i` the code `codigo` collides with another type. */
  predicate CodeTakenByOther(ts: seq<EmailType>, i: nat, codigo: string) {
    exists j :: 0 <= j < |ts| && j != i && ts[j].codigo == codigo
  }

  /** `updateEmailType`: 404 for an unknown id (active or not does not matter); a code
      held by another type violates the unique index (500); otherwise 200. */
  method UpdateEmailType(store: TypeStore, id: Oid, patch: TypePatch) returns (status: int)
    modifies store
    ensures store.nextId == old(store.nextId)
    ensures ById(old(store.types), id).None? ==> status == 404 && store.types == old(store.types)
    ensures ById(old(store.types), id).Some? ==>
      var i := ById(old(store.types), id).value;
      var r := Overwritten(old(store.types)[i], patch);
      if CodeTakenByOther(old(store.types), i, r.codigo) then
        status == 500 && store.types == old(store.types)
      else
        status == 200 && store.types == old(store.types)[i := r]
    ensures UniqueCodes(old(store.types)) ==> UniqueCodes(store.types)
  {
    var found := ById(store.types, id);
    if found.None? {
      return 404;
    }
    var i := found.value;
    var r := Overwritten(store.types[i], patch);
    if CodeTakenByOther(store.types, i, r.codigo) {
      return 500;
    }
    store.types := store.types[i := r];
    status := 200;
  }

  /** `deleteEmailType`: 404 for an unknown id; otherwise `activo` becomes false,
      whatever it was, so deleting twice answers 200 both times. */
  method DeleteEmailType(store: TypeStore, id: Oid) returns (status: int)
    modifies store
    ensures store.nextId == old(store.nextId)
    ensures ById(old(store.types), id).None? ==> status == 404 && store.types == old(store.types)
    ensures ById(old(store.types), id).Some? ==>
      var i := ById(old(store.types), id).value;
      status == 200 && store.types == old(store.types)[i := old(store.types)[i].(activo := false)]
  {
    var found := ById(store.types, id);
    if found.None? {
      return 404;
    }
    store.types := store.types[found.value := store.types[found.value].(activo := false)];
    status := 200;
  }

  /** A deleted type is still found by id, but is no longer listed. */
  lemma DeletedTypeIsHiddenNotGone(ts: seq<EmailType>, id: Oid)
    requires ById(ts, id).Some?
    ensures var i := ById(ts, id).value;
      var after := ts[i := ts[i].(activo := false)];
      GetEmailTypeById(after, id) == Some(after[i]) && after[i] !in GetAllEmailTypes(after)
  {
    var i := ById(ts, id).value;
    var after := ts[i := ts[i].(activo := false)];
    assert forall j :: 0 <= j < |after| ==> after[j].id == ts[j].id;
    assert ById(after, id) == Some(i);
  }
}
