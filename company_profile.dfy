/** The company profile (src/controllers/companyProfileController.js, src/models/Company.js):
    a single record, created once, edited by merging, and soft-deleted or restored
    through its `activo` flag. The nested `direccion`, `telefono` and `redes_sociales`
    objects are maps from their keys to strings; request strings that are absent are "". */
module CompanyProfile {
  import opened Base
  import opened Query

  datatype Company = Company(
    nombre: string,
    logo: string,
    slogan: string,
    direccion: map<string, string>,
    telefono: map<string, string>,
    email: string,
    redesSociales: map<string, string>,
    activo: bool)

  /** The fields of a create or update request, after the sanitisers. A nested object
      that was not sent is None (an object that was sent is truthy even when empty). */
  datatype CompanyInput = CompanyInput(
    nombre: string,
    logo: string,
    slogan: string,
    direccion: Option<map<string, string>>,
    telefono: Option<map<string, string>>,
    email: string,
    redesSociales: Option<map<string, string>>)

  class CompanyStore {
    var companies: seq<Company>

    constructor ()
      ensures companies == []
    {
      companies := [];
    }
  }

  /** `r` is `current` with the keys of `sent` written over it: the sent keys win, the
      other old keys are kept, and there are no other keys. */
  predicate MergedFrom(r: map<string, string>, current: map<string, string>, sent: Option<map<string, string>>) {
    (sent.None? ==> r == current)
    && (sent.Some? ==> forall k :: k in sent.value ==> k in r && r[k] == sent.value[k])
    && (forall k :: k in current && (sent.None? || k !in sent.value) ==> k in r && r[k] == current[k])
    && (forall k :: k in r ==> k in current || (sent.Some? && k in sent.value))
  }

  /** `{ ...old, ...new }` on a nested object, or the old object when none was sent. */
  function Spread(current: map<string, string>, sent: Option<map<string, string>>): (r: map<string, string>)
    ensures MergedFrom(r, current, sent)
  {
    if sent.None? then current else current + sent.value
  }

  /** A new record from a create request: active, nested objects empty when not sent. */
  function NewCompany(input: CompanyInput): (c: Company)
    ensures c.activo && c.nombre == input.nombre && c.email == input.email
    ensures c.logo == input.logo && c.slogan == input.slogan
    ensures MergedFrom(c.direccion, map[], input.direccion)
    ensures MergedFrom(c.telefono, map[], input.telefono)
    ensures MergedFrom(c.redesSociales, map[], input.redesSociales)
  {
    Company(input.nombre, input.logo, input.slogan,
            Spread(map[], input.direccion), Spread(map[], input.telefono),
            input.email, Spread(map[], input.redesSociales), true)
  }

  /** The record after an update: truthy scalars overwrite, nested objects merge with
      the sent keys winning; `activo` is untouched. */
  function Updated(c: Company, input: CompanyInput): (r: Company)
    ensures r.nombre == (if Truthy(input.nombre) then input.nombre else c.nombre)
    ensures r.logo == (if Truthy(input.logo) then input.logo else c.logo)
    ensures r.slogan == (if Truthy(input.slogan) then input.slogan else c.slogan)
    ensures r.email == (if Truthy(input.email) then input.email else c.email)
    ensures r.activo == c.activo
    ensures MergedFrom(r.direccion, c.direccion, input.direccion)
    ensures MergedFrom(r.telefono, c.telefono, input.telefono)
    ensures MergedFrom(r.redesSociales, c.redesSociales, input.redesSociales)
  {
    Company(
      if Truthy(input.nombre) then input.nombre else c.nombre,
      if Truthy(input.logo) then input.logo else c.logo,
      if Truthy(input.slogan) then input.slogan else c.slogan,
      Spread(c.direccion, input.direccion),
      Spread(c.telefono, input.telefono),
      if Truthy(input.email) then input.email else c.email,
      Spread(c.redesSociales, input.redesSociales),
      c.activo)
  }

  /** Sending the same update twice changes nothing the second time. */
  lemma UpdateIsIdempotent(c: Company, input: CompanyInput)
    ensures Updated(Updated(c, input), input) == Updated(c, input)
  {
    var once := Updated(c, input);
    assert Spread(once.direccion, input.direccion) == once.direccion;
    assert Spread(once.telefono, input.telefono) == once.telefono;
    assert Spread(once.redesSociales, input.redesSociales) == once.redesSociales;
  }

  /** An update that sends nothing leaves the record as it was. */
  lemma EmptyUpdateIsIdentity(c: Company)
    ensures Updated(c, CompanyInput("", "", "", None, None, "", None)) == c
  {
  }

  /** `Company.findOne({ activo: true })`. */
  function ActiveCompany(companies: seq<Company>): (r: Option<Company>)
    ensures r.Some? ==> r.value in companies && r.value.activo
    ensures r.None? <==> forall j :: 0 <= j < |companies| ==> !companies[j].activo
    ensures r.Some? ==>
      exists i :: 0 <= i < |companies| && companies[i] == r.value && forall j :: 0 <= j < i ==> !companies[j].activo
  {
    match FindFirst(companies, (c: Company) => c.activo)
    case None => None
    case Some(i) => Some(companies[i])
  }

  /** `getCompanyInfo`: the active record with 200, or 404. */
  function GetCompanyInfo(companies: seq<Company>): (r: (int, Option<Company>))
    ensures r.0 == 200 <==> r.1.Some?
    ensures r.0 == 404 <==> forall j :: 0 <= j < |companies| ==> !companies[j].activo
    ensures r.1.Some? ==> r.1.value.activo
    ensures r.1 == ActiveCompany(companies)
  {
    var c := ActiveCompany(companies);
    if c.Some? then (200, c) else (404, None)
  }

  /** `createCompany`: 400 for an invalid body or when any record exists (active or
      not); a name the sanitisers left empty fails the schema's `required` (500). */
  method CreateCompany(store: CompanyStore, valid: bool, input: CompanyInput) returns (status: int)
    modifies store
    ensures !valid ==> status == 400 && store.companies == old(store.companies)
    ensures valid && old(store.companies) != [] ==> status == 400 && store.companies == old(store.companies)
    ensures valid && old(store.companies) == [] && !Truthy(input.nombre) ==> status == 500 && store.companies == []
    ensures valid && old(store.companies) == [] && Truthy(input.nombre) ==>
      status == 201 && store.companies == [NewCompany(input)]
    ensures |old(store.companies)| <= 1 ==> |store.companies| <= 1
  {
    if !valid {
      return 400;
    }
    if store.companies != [] {
      return 400;
    }
    if !Truthy(input.nombre) {
      return 500;
    }
    store.companies := [NewCompany(input)];
    status := 201;
  }

  /** `updateCompanyInfo`: 400 for an invalid body, 404 when there is no record,
      otherwise the first record is updated, whatever its `activo`. */
  method UpdateCompanyInfo(store: CompanyStore, valid: bool, input: CompanyInput) returns (status: int)
    modifies store
    ensures !valid || old(store.companies) == [] ==> store.companies == old(store.companies)
    ensures !valid ==> status == 400
    ensures valid && old(store.companies) == [] ==> status == 404
    ensures valid && old(store.companies) != [] ==>
      status == 200 && store.companies == old(store.companies)[0 := Updated(old(store.companies)[0], input)]
  {
    if !valid {
      return 400;
    }
    if store.companies == [] {
      return 404;
    }
    store.companies := store.companies[0 := Updated(store.companies[0], input)];
    status := 200;
  }

  /** `deleteCompany`: the first record is marked inactive, even if it already is. */
  method DeleteCompany(store: CompanyStore) returns (status: int)
    modifies store
    ensures old(store.companies) == [] ==> status == 404 && store.companies == []
    ensures old(store.companies) != [] ==>
      status == 200 && store.companies == old(store.companies)[0 := old(store.companies)[0].(activo := false)]
  {
    if store.companies == [] {
      return 404;
    }
    store.companies := store.companies[0 := store.companies[0].(activo := false)];
    status := 200;
  }

  /** `restoreCompany`: the first inactive record is reactivated; 404 when none is inactive. */
  method RestoreCompany(store: CompanyStore) returns (status: int)
    modifies store
    ensures FindFirst(old(store.companies), (c: Company) => !c.activo).None? ==>
      status == 404 && store.companies == old(store.companies)
    ensures FindFirst(old(store.companies), (c: Company) => !c.activo).Some? ==>
      var i := FindFirst(old(store.companies), (c: Company) => !c.activo).value;
      status == 200 && store.companies == old(store.companies)[i := old(store.companies)[i].(activo := true)]
  {
    var found := FindFirst(store.companies, (c: Company) => !c.activo);
    if found.None? {
      return 404;
    }
    store.companies := store.companies[found.value := store.companies[found.value].(activo := true)];
    status := 200;
  }

  /** Deleting the single record hides it from `getCompanyInfo`, and `restoreCompany`
      then finds it as the first inactive record. */
  lemma DeleteThenRestore(c: Company)
    ensures GetCompanyInfo([c.(activo := false)]).0 == 404
    ensures FindFirst([c.(activo := false)], (x: Company) => !x.activo) == Some(0)
  {
  }

  /** `deleteCompany` followed by `restoreCompany` on a store whose first record is
      active brings back exactly the records that were there, with both answering 200. */
  method DeleteThenRestoreRoundTrip(store: CompanyStore) returns (deleted: int, restored: int)
    requires |store.companies| > 0 && store.companies[0].activo
    modifies store
    ensures deleted == 200 && restored == 200
    ensures store.companies == old(store.companies)
  {
    deleted := DeleteCompany(store);
    restored := RestoreCompany(store);
  }
}
