/** The regulatory-document version manager
    (src/controllers/regulatoryDocumentController.js, src/models/RegulatoryDocument.js).
    A document holds its versions in creation order; every version the code creates
    is labelled "N.0", so a version number is the natural N and its label is
    VersionLabel(N). Each operation on one document is a function returning either
    the saved document or the error status; the handlers apply it to the store. */
module RegulatoryDocuments {
  import opened Base
  import opened Query
  import DocumentValidator

  datatype Version = Version(id: Oid, number: nat, contenido: string, fechaCreacion: Time, vigente: bool, eliminado: bool)

  datatype Document = Document(
    id: Oid,
    titulo: string,
    versiones: seq<Version>,
    fechaVigencia: Time,
    versionActual: nat,
    eliminado: bool,
    updatedAt: Time)

  /** What an operation on one document ends in: a save, or an error status with no save. */
  datatype Outcome = Failed(status: int) | Saved(doc: Document)

  class DocumentStore {
    var docs: seq<Document>
    /** Source of fresh document and version ids. */
    var nextId: Oid

    constructor ()
      ensures docs == [] && nextId == 0
    {
      docs := [];
      nextId := 0;
    }
  }

  // ---------------------------------------------------------------------------
  // Version labels

  function DigitChar(d: nat): char
    requires d < 10
  {
    ['0', '1', '2', '3', '4', '5', '6', '7', '8', '9'][d]
  }

  /** The decimal numeral of `n`, without leading zeros. */
  function NatToDecimal(n: nat): (s: string)
    ensures DocumentValidator.Digits(s)
    decreases n
  {
    if n < 10 then [DigitChar(n)] else NatToDecimal(n / 10) + [DigitChar(n % 10)]
  }

  /** The value of a string of decimal digits. */
  function DecimalValue(s: string): nat
    requires DocumentValidator.Digits(s) || s == []
  {
    if s == [] then 0 else 10 * DecimalValue(s[..|s| - 1]) + (s[|s| - 1] as int - '0' as int)
  }

  /** Reading the numeral back gives the number. */
  lemma {:induction false} DecimalRoundTrip(n: nat)
    ensures DecimalValue(NatToDecimal(n)) == n
    decreases n
  {
    var s := NatToDecimal(n);
    if n >= 10 {
      DecimalRoundTrip(n / 10);
      assert s[..|s| - 1] == NatToDecimal(n / 10);
    }
  }

  /** `(n).toFixed(1)` for a whole number: "N.0". */
  function VersionLabel(n: nat): string {
    NatToDecimal(n) + ".0"
  }

  /** Every label the code creates passes the validator's version format, and
      distinct numbers have distinct labels. */
  lemma VersionLabelWellFormed(n: nat, m: nat)
    ensures DocumentValidator.VersionFormat(VersionLabel(n))
    ensures VersionLabel(n) == VersionLabel(m) ==> n == m
  {
    var s := VersionLabel(n);
    var k := |NatToDecimal(n)|;
    assert s[..k] == NatToDecimal(n);
    assert s[k + 1..] == "0";
    if VersionLabel(n) == VersionLabel(m) {
      var t := VersionLabel(m);
      assert |NatToDecimal(n)| == |NatToDecimal(m)|;
      assert NatToDecimal(n) == s[..k] == t[..k] == NatToDecimal(m);
      DecimalRoundTrip(n);
      DecimalRoundTrip(m);
    }
  }

  // ---------------------------------------------------------------------------
  // Reading a document

  /** The largest version number, deleted versions included, starting from 0 (the
      `reduce` with initial "0.0"). */
  function MaxVersion(vs: seq<Version>): (m: nat)
    ensures forall k :: 0 <= k < |vs| ==> vs[k].number <= m
    ensures m == 0 || exists k :: 0 <= k < |vs| && vs[k].number == m
  {
    if |vs| == 0 then 0
    else
      var m := MaxVersion(vs[..|vs| - 1]);
      if vs[|vs| - 1].number > m then vs[|vs| - 1].number else m
  }

  function FirstVigente(vs: seq<Version>): Option<nat> {
    FindFirst(vs, (v: Version) => v.vigente)
  }

  /** The history label of a version. */
  function StatusLabel(v: Version): (name: string)
    ensures name == "Eliminado" <==> v.eliminado
    ensures name == "Vigente" <==> !v.eliminado && v.vigente
    ensures name == "No vigente" <==> !v.eliminado && !v.vigente
  {
    if v.eliminado then "Eliminado" else if v.vigente then "Vigente" else "No vigente"
  }

  /** Exactly one version is vigente. */
  predicate SoleVigente(vs: seq<Version>, k: nat) {
    k < |vs| && vs[k].vigente && forall j :: 0 <= j < |vs| && j != k ==> !vs[j].vigente
  }

  predicate DistinctNumbers(vs: seq<Version>) {
    forall i, j :: 0 <= i < j < |vs| ==> vs[i].number != vs[j].number
  }

  // ---------------------------------------------------------------------------
  // Operations on one document

  /** The first document of a store: version "1.0", vigente, not deleted, and current. */
  function NewDocument(id: Oid, versionId: Oid, titulo: string, contenido: string, fechaVigencia: Time, now: Time): (d: Document)
    ensures |d.versiones| == 1 && d.versiones[0].number == 1 && d.versionActual == 1
    ensures d.versiones[0].vigente && !d.versiones[0].eliminado && !d.eliminado
    ensures d.versiones[0].contenido == contenido && d.titulo == titulo && SoleVigente(d.versiones, 0)
  {
    Document(id, titulo, [Version(versionId, 1, contenido, now, true, false)], fechaVigencia, 1, false, now)
  }

  /** Adding a version (the shared core of create-on-existing and update): 400 when no
      version is vigente; otherwise the first vigente version is cleared, version
      max + 1 is appended vigente and becomes current, and a version without content
      fails the schema's `required` check (500). */
  function AddVersion(d: Document, versionId: Oid, contenido: string, fechaVigencia: Time, now: Time): (r: Outcome)
    ensures r.Failed? ==> r.status == 400 || r.status == 500
    ensures r == Failed(400) <==> forall k :: 0 <= k < |d.versiones| ==> !d.versiones[k].vigente
    ensures r.Saved? <==> (exists k :: 0 <= k < |d.versiones| && d.versiones[k].vigente) && contenido != ""
    ensures r.Saved? ==>
      var n := |d.versiones|;
      var i := FirstVigente(d.versiones).value;
      |r.doc.versiones| == n + 1
      && r.doc.versiones[n] == Version(versionId, MaxVersion(d.versiones) + 1, contenido, now, true, false)
      && r.doc.versiones[..n] == d.versiones[i := d.versiones[i].(vigente := false)]
      && r.doc.versionActual == MaxVersion(d.versiones) + 1
      && r.doc.fechaVigencia == fechaVigencia && r.doc.updatedAt == now
      && r.doc.id == d.id && r.doc.titulo == d.titulo && r.doc.eliminado == d.eliminado
  {
    match FirstVigente(d.versiones)
    case None => Failed(400)
    case Some(i) =>
      if contenido == "" then Failed(500)
      else
        var cleared := d.versiones[i := d.versiones[i].(vigente := false)];
        var number := MaxVersion(d.versiones) + 1;
        var versiones := cleared + [Version(versionId, number, contenido, now, true, false)];
        assert versiones[..|d.versiones|] == cleared;
        Saved(d.(versiones := versiones, versionActual := number, fechaVigencia := fechaVigencia, updatedAt := now))
  }

  /** The added version is numbered above every existing one, deleted ones included,
      so numbers stay distinct. */
  lemma AddVersionNumbersAreFresh(d: Document, versionId: Oid, contenido: string, fechaVigencia: Time, now: Time)
    requires DistinctNumbers(d.versiones)
    requires AddVersion(d, versionId, contenido, fechaVigencia, now).Saved?
    ensures var vs := AddVersion(d, versionId, contenido, fechaVigencia, now).doc.versiones;
      DistinctNumbers(vs)
      && forall k :: 0 <= k < |vs| - 1 ==> vs[k].number < vs[|vs| - 1].number
  {
    var vs := AddVersion(d, versionId, contenido, fechaVigencia, now).doc.versiones;
    var n := |d.versiones|;
    assert forall k :: 0 <= k < n ==> vs[k].number == vs[..n][k].number == d.versiones[k].number;
  }

  /** With exactly one vigente version before, the new version is the only vigente one after. */
  lemma AddVersionKeepsSoleVigente(d: Document, k: nat, versionId: Oid, contenido: string, fechaVigencia: Time, now: Time)
    requires SoleVigente(d.versiones, k)
    requires contenido != ""
    ensures AddVersion(d, versionId, contenido, fechaVigencia, now).Saved?
    ensures var r := AddVersion(d, versionId, contenido, fechaVigencia, now).doc;
      SoleVigente(r.versiones, |d.versiones|) && r.versionActual == r.versiones[|d.versiones|].number
  {
    var r := AddVersion(d, versionId, contenido, fechaVigencia, now).doc;
    var n := |d.versiones|;
    assert FirstVigente(d.versiones) == Some(k);
    assert forall j :: 0 <= j < n ==> r.versiones[j] == r.versiones[..n][j];
  }

  /** A version that can be promoted when `wanted` is deleted. */
  predicate Promotable(v: Version, wanted: string) {
    !v.eliminado && VersionLabel(v.number) != wanted
  }

  function VersionByLabel(vs: seq<Version>, wanted: string): Option<nat> {
    FindFirst(vs, (v: Version) => VersionLabel(v.number) == wanted)
  }

  /** Deleting the version labelled `wanted`: 404 when none has it, 400 when the first
      that does is already deleted or no other live version remains; otherwise it is
      marked deleted and non-vigente, and the most recently created other live version
      (the first among equals) becomes vigente and current. Other vigente flags are left
      as they were. */
  function DeleteVersion(d: Document, wanted: string, now: Time): (r: Outcome)
    ensures r == Failed(404) <==> VersionByLabel(d.versiones, wanted).None?
    ensures r.Failed? ==> r.status == 404 || r.status == 400
    ensures r.Saved? <==>
      (VersionByLabel(d.versiones, wanted).Some?
       && !d.versiones[VersionByLabel(d.versiones, wanted).value].eliminado
       && exists j :: 0 <= j < |d.versiones| && Promotable(d.versiones[j], wanted))
    ensures r.Saved? ==>
      var k := VersionByLabel(d.versiones, wanted).value;
      !d.versiones[k].eliminado
      && |r.doc.versiones| == |d.versiones|
      && r.doc.versiones[k] == d.versiones[k].(eliminado := true, vigente := false)
      && exists p :: PromotedFrom(d.versiones, k, p, wanted, r.doc)
    ensures r.Saved? ==> r.doc.fechaVigencia == now && r.doc.updatedAt == now && r.doc.eliminado == d.eliminado
    ensures r.Saved? ==> r.doc.id == d.id && r.doc.titulo == d.titulo
    ensures r == Failed(400) && VersionByLabel(d.versiones, wanted).Some? ==>
      d.versiones[VersionByLabel(d.versiones, wanted).value].eliminado
      || forall j :: 0 <= j < |d.versiones| ==> !Promotable(d.versiones[j], wanted)
  {
    match VersionByLabel(d.versiones, wanted)
    case None => Failed(404)
    case Some(k) =>
      if d.versiones[k].eliminado then Failed(400)
      else
        var marked := d.versiones[k := d.versiones[k].(eliminado := true, vigente := false)];
        MarkingKeepsPromotable(d.versiones, k, wanted);
        match LatestIndex(marked, (v: Version) => Promotable(v, wanted), (v: Version) => v.fechaCreacion)
        case None =>
          assert forall j :: 0 <= j < |d.versiones| ==> !Promotable(d.versiones[j], wanted) by {
            forall j | 0 <= j < |d.versiones| ensures !Promotable(d.versiones[j], wanted) {
              if j != k { assert !Promotable(marked[j], wanted); }
            }
          }
          Failed(400)
        case Some(p) =>
          var doc := d.(versiones := marked[p := marked[p].(vigente := true)], versionActual := marked[p].number,
                        fechaVigencia := now, updatedAt := now);
          PromotedVersion(d.versiones, k, wanted, p, doc);
          Saved(doc)
  }

  /** `doc` holds the versions `vs` with `k` deleted and `p`, the most recently created
      promotable version, made vigente and current; nothing else changed. */
  predicate PromotedFrom(vs: seq<Version>, k: nat, p: nat, wanted: string, doc: Document) {
    k < |vs| && p < |vs| && p != k && Promotable(vs[p], wanted)
    && |doc.versiones| == |vs|
    && doc.versiones[p] == vs[p].(vigente := true)
    && doc.versionActual == vs[p].number
    && (forall j :: 0 <= j < |vs| && Promotable(vs[j], wanted) ==> vs[j].fechaCreacion <= vs[p].fechaCreacion)
    && (forall j :: 0 <= j < p && Promotable(vs[j], wanted) ==> vs[j].fechaCreacion < vs[p].fechaCreacion)
    && (forall j :: 0 <= j < |vs| && j != k && j != p ==> doc.versiones[j] == vs[j])
  }

  /** Marking version `k` deleted changes which versions are promotable only at `k`. */
  lemma MarkingKeepsPromotable(vs: seq<Version>, k: nat, wanted: string)
    requires k < |vs|
    ensures var marked := vs[k := vs[k].(eliminado := true, vigente := false)];
      forall j :: 0 <= j < |marked| && j != k ==> (Promotable(marked[j], wanted) <==> Promotable(vs[j], wanted))
    ensures !Promotable(vs[k].(eliminado := true, vigente := false), wanted)
  {
  }

  /** The latest promotable version after marking `k` gives a promotion from `vs`. */
  lemma PromotedVersion(vs: seq<Version>, k: nat, wanted: string, p: nat, doc: Document)
    requires k < |vs| && p < |vs| && VersionLabel(vs[k].number) == wanted
    requires var marked := vs[k := vs[k].(eliminado := true, vigente := false)];
      Promotable(marked[p], wanted)
      && (forall j :: 0 <= j < |marked| && Promotable(marked[j], wanted) ==> marked[j].fechaCreacion <= marked[p].fechaCreacion)
      && (forall j :: 0 <= j < p && Promotable(marked[j], wanted) ==> marked[j].fechaCreacion < marked[p].fechaCreacion)
      && doc.versiones == marked[p := marked[p].(vigente := true)]
      && doc.versionActual == marked[p].number
    ensures PromotedFrom(vs, k, p, wanted, doc)
    ensures doc.versiones[k] == vs[k].(eliminado := true, vigente := false)
  {
    var marked := vs[k := vs[k].(eliminado := true, vigente := false)];
    MarkingKeepsPromotable(vs, k, wanted);
    forall j | 0 <= j < |vs| && Promotable(vs[j], wanted)
      ensures vs[j].fechaCreacion <= vs[p].fechaCreacion
    {
      assert j != k;
      assert Promotable(marked[j], wanted);
    }
    forall j | 0 <= j < p && Promotable(vs[j], wanted)
      ensures vs[j].fechaCreacion < vs[p].fechaCreacion
    {
      assert j != k;
      assert Promotable(marked[j], wanted);
    }
  }

  function VersionById(vs: seq<Version>, versionId: Oid): Option<nat> {
    FindFirst(vs, (v: Version) => v.id == versionId)
  }

  /** Restoring the version with id `versionId`: 404 when there is none, 400 unless it
      is deleted; otherwise it is undeleted, and when the last version in the array has
      that id it becomes the only vigente version and the current one. */
  function RestoreVersion(d: Document, versionId: Oid, now: Time): (r: Outcome)
    ensures VersionById(d.versiones, versionId).None? ==> r == Failed(404)
    ensures r.Failed? ==> r.status == 404 || r.status == 400
    ensures r.Saved? <==> VersionById(d.versiones, versionId).Some? && d.versiones[VersionById(d.versiones, versionId).value].eliminado
    ensures r.Saved? ==>
      var k := VersionById(d.versiones, versionId).value;
      var last := d.versiones[|d.versiones| - 1].id == versionId;
      |r.doc.versiones| == |d.versiones| && !r.doc.versiones[k].eliminado && r.doc.updatedAt == now
      && (forall j :: 0 <= j < |d.versiones| && j != k ==> r.doc.versiones[j].(vigente := d.versiones[j].vigente) == d.versiones[j])
      && r.doc.id == d.id && r.doc.titulo == d.titulo && r.doc.eliminado == d.eliminado
      && (last ==> SoleVigente(r.doc.versiones, k) && r.doc.versionActual == d.versiones[k].number && r.doc.fechaVigencia == now
                   && r.doc.versiones[k] == d.versiones[k].(eliminado := false, vigente := true))
      && (!last ==> r.doc.versiones == d.versiones[k := d.versiones[k].(eliminado := false)]
                    && r.doc.versionActual == d.versionActual && r.doc.fechaVigencia == d.fechaVigencia)
  {
    match VersionById(d.versiones, versionId)
    case None => Failed(404)
    case Some(k) =>
      if !d.versiones[k].eliminado then Failed(400)
      else
        var restored := d.versiones[k := d.versiones[k].(eliminado := false)];
        if d.versiones[|d.versiones| - 1].id == versionId then
          var versiones := OnlyVigente(restored, k);
          Saved(d.(versiones := versiones, versionActual := d.versiones[k].number, fechaVigencia := now, updatedAt := now))
        else
          Saved(d.(versiones := restored, updatedAt := now))
  }

  /** The versions with `k` the only vigente one and nothing else changed. */
  function OnlyVigente(vs: seq<Version>, k: nat): (r: seq<Version>)
    requires k < |vs|
    ensures |r| == |vs| && SoleVigente(r, k)
    ensures forall j :: 0 <= j < |vs| ==> r[j] == vs[j].(vigente := j == k)
  {
    seq(|vs|, j requires 0 <= j < |vs| => vs[j].(vigente := j == k))
  }

  /** Soft-deleting a whole document: 400 when it already is. */
  function DeleteDocument(d: Document, now: Time): (r: Outcome)
    ensures r.Failed? <==> d.eliminado
    ensures r.Failed? ==> r.status == 400
    ensures r.Saved? ==> r.doc == d.(eliminado := true, updatedAt := now)
  {
    if d.eliminado then Failed(400) else Saved(d.(eliminado := true, updatedAt := now))
  }

  /** Restoring a whole document: 400 unless it is deleted. */
  function RestoreDocument(d: Document, now: Time): (r: Outcome)
    ensures r.Failed? <==> !d.eliminado
    ensures r.Failed? ==> r.status == 400
    ensures r.Saved? ==> r.doc == d.(eliminado := false, updatedAt := now)
  {
    if !d.eliminado then Failed(400) else Saved(d.(eliminado := false, updatedAt := now))
  }

  /** Deleting then restoring a document gives it back, apart from its timestamp. */
  lemma DeleteRestoreRoundTrip(d: Document, t1: Time, t2: Time)
    requires !d.eliminado
    ensures DeleteDocument(d, t1).Saved?
    ensures RestoreDocument(DeleteDocument(d, t1).doc, t2) == Saved(d.(updatedAt := t2))
  {
  }

  /** Deleting a version does not clear other vigente flags: with versions 1 (vigente), 2
      and 3, deleting "3.0" promotes 2, the latest live one, and 1 stays vigente too. */
  lemma DeleteVersionCanLeaveTwoVigente()
    ensures var d := Document(0, "Deslinde legal",
        [Version(1, 1, "a", 10, true, false), Version(2, 2, "b", 20, false, false), Version(3, 3, "c", 30, false, false)],
        0, 1, false, 0);
      var r := DeleteVersion(d, "3.0", 40);
      r.Saved? && r.doc.versiones[0].vigente && r.doc.versiones[1].vigente
  {
    var vs := [Version(1, 1, "a", 10, true, false), Version(2, 2, "b", 20, false, false), Version(3, 3, "c", 30, false, false)];
    SmallLabels();
    assert VersionByLabel(vs, "3.0") == Some(2);
    LatestOfExample(vs[2 := vs[2].(eliminado := true, vigente := false)]);
  }

  /** The labels of the first three version numbers. */
  lemma SmallLabels()
    ensures VersionLabel(1) == "1.0" && VersionLabel(2) == "2.0" && VersionLabel(3) == "3.0"
  {
  }

  /** In the example, the second version is the most recently created promotable one. */
  lemma LatestOfExample(marked: seq<Version>)
    requires marked == [Version(1, 1, "a", 10, true, false), Version(2, 2, "b", 20, false, false), Version(3, 3, "c", 30, false, true)]
    ensures LatestIndex(marked, (v: Version) => Promotable(v, "3.0"), (v: Version) => v.fechaCreacion) == Some(1)
  {
    SmallLabels();
    var promotable := (v: Version) => Promotable(v, "3.0");
    var created := (v: Version) => v.fechaCreacion;
    assert LatestIndex(marked[..1], promotable, created) == Some(0);
    assert marked[..2][..1] == marked[..1];
    assert LatestIndex(marked[..2], promotable, created) == Some(1);
    assert marked[..2] == marked[..|marked| - 1];
  }

  // ---------------------------------------------------------------------------
  // Listings

  /** One entry of `getAllCurrentVersions`. */
  datatype CurrentVersion = CurrentVersion(docId: Oid, titulo: string, number: nat, contenido: string, fechaVigencia: Time)

  /** The first version that is vigente and not deleted. */
  function LiveVigente(vs: seq<Version>): Option<nat> {
    FindFirst(vs, (v: Version) => v.vigente && !v.eliminado)
  }

  /** The listed entries of the given documents, skipping those with no live vigente version. */
  function CurrentEntries(docs: seq<Document>): (r: seq<CurrentVersion>)
    ensures |r| <= |docs|
    ensures r == [] <==> forall j :: 0 <= j < |docs| ==> LiveVigente(docs[j].versiones).None?
    ensures forall k :: 0 <= k < |r| ==> EntryFrom(r[k], docs)
  {
    if |docs| == 0 then []
    else
      var rest := CurrentEntries(docs[1..]);
      match LiveVigente(docs[0].versiones)
      case None => rest
      case Some(v) => [EntryOf(docs[0])] + rest
  }

  /** The entry is the one listed for some document with a live vigente version. */
  predicate EntryFrom(e: CurrentVersion, docs: seq<Document>) {
    exists j :: 0 <= j < |docs| && LiveVigente(docs[j].versiones).Some? && e == EntryOf(docs[j])
  }

  /** The entry listed for a document: its id, title and validity date, and the number
      and content of its first live vigente version. */
  function EntryOf(d: Document): CurrentVersion
    requires LiveVigente(d.versiones).Some?
  {
    var v := LiveVigente(d.versiones).value;
    CurrentVersion(d.id, d.titulo, d.versiones[v].number, d.versiones[v].contenido, d.fechaVigencia)
  }

  /** Every document with a live vigente version has its entry listed. */
  lemma CurrentEntriesComplete(docs: seq<Document>)
    ensures forall j :: 0 <= j < |docs| && LiveVigente(docs[j].versiones).Some? ==> EntryOf(docs[j]) in CurrentEntries(docs)
  {
    forall j | 0 <= j < |docs| && LiveVigente(docs[j].versiones).Some?
      ensures EntryOf(docs[j]) in CurrentEntries(docs)
    {
      EntryListed(docs, j);
    }
  }

  /** The entry of document `j` is in the list. */
  lemma {:induction false} EntryListed(docs: seq<Document>, j: nat)
    requires j < |docs| && LiveVigente(docs[j].versiones).Some?
    ensures EntryOf(docs[j]) in CurrentEntries(docs)
    decreases j
  {
    var all := CurrentEntries(docs);
    var later := CurrentEntries(docs[1..]);
    if j == 0 {
      assert all == [EntryOf(docs[0])] + later;
    } else {
      assert docs[j] == docs[1..][j - 1];
      EntryListed(docs[1..], j - 1);
      if LiveVigente(docs[0].versiones).Some? {
        assert all == [EntryOf(docs[0])] + later;
      } else {
        assert all == later;
      }
    }
  }

  function LiveDocuments(docs: seq<Document>): seq<Document> {
    Filter(docs, (d: Document) => !d.eliminado)
  }

  /** `getAllCurrentVersions`: 404 when no document is live or none of them has a live
      vigente version; otherwise the entries of the live documents. */
  function GetAllCurrentVersions(docs: seq<Document>): (r: (int, seq<CurrentVersion>))
    ensures r.0 == 200 || r.0 == 404
    ensures r.0 == 404 <==> r.1 == []
    ensures r.0 == 200 ==> r.1 == CurrentEntries(LiveDocuments(docs))
    ensures forall k :: 0 <= k < |r.1| ==> exists j :: (0 <= j < |docs| && docs[j].id == r.1[k].docId && !docs[j].eliminado)
  {
    var live := LiveDocuments(docs);
    var entries := CurrentEntries(live);
    if |live| == 0 || |entries| == 0 then (404, [])
    else
      LiveEntriesOrigin(docs);
      (200, entries)
  }

  /** Every entry listed for the live documents names a live document of the store. */
  lemma LiveEntriesOrigin(docs: seq<Document>)
    ensures var entries := CurrentEntries(LiveDocuments(docs));
      forall k :: 0 <= k < |entries| ==> exists j :: (0 <= j < |docs| && docs[j].id == entries[k].docId && !docs[j].eliminado)
  {
    var live := LiveDocuments(docs);
    var entries := CurrentEntries(live);
    forall k | 0 <= k < |entries|
      ensures exists j :: (0 <= j < |docs| && docs[j].id == entries[k].docId && !docs[j].eliminado)
    {
      assert EntryFrom(entries[k], live);
      var j :| 0 <= j < |live| && LiveVigente(live[j].versiones).Some? && entries[k] == EntryOf(live[j]);
      assert live[j] in docs && !live[j].eliminado;
      var i :| 0 <= i < |docs| && docs[i] == live[j];
    }
  }

  /** `getCurrentVersion(titulo)`: the first live document with the title, and its first
      live vigente version. */
  function GetCurrentVersion(docs: seq<Document>, titulo: string): (r: Option<CurrentVersion>)
    ensures r.Some? ==> exists j :: (0 <= j < |docs| && !docs[j].eliminado && docs[j].titulo == titulo && docs[j].id == r.value.docId)
    ensures (forall j :: 0 <= j < |docs| ==> docs[j].eliminado || docs[j].titulo != titulo) ==> r.None?
    ensures r.Some? <==>
      (LiveByTitle(docs, titulo).Some? && LiveVigente(docs[LiveByTitle(docs, titulo).value].versiones).Some?)
    ensures r.Some? ==>
      var j := LiveByTitle(docs, titulo).value;
      var v := LiveVigente(docs[j].versiones).value;
      r.value.docId == docs[j].id && r.value.titulo == titulo
      && docs[j].versiones[v].vigente && !docs[j].versiones[v].eliminado
      && r.value.number == docs[j].versiones[v].number
      && r.value.contenido == docs[j].versiones[v].contenido
      && r.value.fechaVigencia == docs[j].fechaVigencia
  {
    match LiveByTitle(docs, titulo)
    case None => None
    case Some(j) =>
      match LiveVigente(docs[j].versiones)
      case None => None
      case Some(v) =>
        Some(CurrentVersion(docs[j].id, docs[j].titulo, docs[j].versiones[v].number, docs[j].versiones[v].contenido, docs[j].fechaVigencia))
  }

  /** One entry of `getVersionHistory`. */
  datatype HistoryEntry = HistoryEntry(id: Oid, number: nat, contenido: string, fechaCreacion: Time, estado: string)

  /** `getVersionHistory(titulo)`: among the live documents with the title, the one
      updated last (the first among equals); every version with its status label. */
  function GetVersionHistory(docs: seq<Document>, titulo: string): (r: Option<seq<HistoryEntry>>)
    ensures r.None? <==> forall j :: 0 <= j < |docs| ==> docs[j].eliminado || docs[j].titulo != titulo
    ensures r.Some? ==> exists j :: (0 <= j < |docs| && !docs[j].eliminado && docs[j].titulo == titulo
      && (forall i :: 0 <= i < |docs| && !docs[i].eliminado && docs[i].titulo == titulo ==> docs[i].updatedAt <= docs[j].updatedAt)
      && |r.value| == |docs[j].versiones|
      && forall k :: 0 <= k < |r.value| ==>
           var v := docs[j].versiones[k];
           r.value[k] == HistoryEntry(v.id, v.number, v.contenido, v.fechaCreacion, StatusLabel(v)))
  {
    match LatestIndex(docs, (d: Document) => d.titulo == titulo && !d.eliminado, (d: Document) => d.updatedAt)
    case None => None
    case Some(j) =>
      var vs := docs[j].versiones;
      Some(seq(|vs|, k requires 0 <= k < |vs| =>
        HistoryEntry(vs[k].id, vs[k].number, vs[k].contenido, vs[k].fechaCreacion, StatusLabel(vs[k]))))
  }

  // ---------------------------------------------------------------------------
  // The handlers on the store

  function DocById(docs: seq<Document>, id: Oid): Option<nat> {
    FindFirst(docs, (d: Document) => d.id == id)
  }

  /** `getDocumentById` as written: the response object names `_id`, which is not in
      scope, so building it throws and every document that is found ends in the catch
      block's 500. Only an unknown id gets an answer of its own, 404. */
  function GetDocumentByIdAsWritten(docs: seq<Document>, id: Oid): (status: int)
    ensures status == 404 <==> forall j :: 0 <= j < |docs| ==> docs[j].id != id
    ensures status == 500 <==> exists j :: 0 <= j < |docs| && docs[j].id == id
  {
    if DocById(docs, id).None? then 404 else 500
  }

  /** `getDocumentById` as intended: 200 with the document of that id, deleted or not
      (`findById` does not filter), and 404 when no document has it. */
  function GetDocumentById(docs: seq<Document>, id: Oid): (r: (int, Option<Document>))
    ensures r.0 == 200 || r.0 == 404
    ensures r.0 == 404 <==> forall j :: 0 <= j < |docs| ==> docs[j].id != id
    ensures r.0 == 404 ==> r.1.None?
    ensures r.0 == 200 ==> r.1.Some? && r.1.value in docs && r.1.value.id == id
  {
    match DocById(docs, id)
    case None => (404, None)
    case Some(j) => (200, Some(docs[j]))
  }

  /** A stored document is served by the intended handler and answered with 500 by the
      handler as written. */
  lemma StoredDocumentIsNotServed()
    ensures var d := Document(7, "Deslinde legal", [], 0, 1, false, 0);
      GetDocumentByIdAsWritten([d], 7) == 500 && GetDocumentById([d], 7) == (200, Some(d))
  {
    var d := Document(7, "Deslinde legal", [], 0, 1, false, 0);
    assert [d][0].id == 7;
  }

  function LiveByTitle(docs: seq<Document>, titulo: string): Option<nat> {
    FindFirst(docs, (d: Document) => d.titulo == titulo && !d.eliminado)
  }

  /** `fecha_vigencia || new Date()`. */
  function DateOrNow(fecha: Option<Time>, now: Time): Time {
    if fecha.Some? then fecha.value else now
  }

  /** `createRegulatoryDocument`: a live document with the title gets a new version
      (200); otherwise a new document with version "1.0" is created (201), unless the
      schema rejects the title or the empty content (500). */
  method CreateRegulatoryDocument(store: DocumentStore, titulo: string, contenido: string, fechaVigencia: Option<Time>, now: Time)
    returns (status: int)
    modifies store
    ensures LiveByTitle(old(store.docs), titulo).Some? ==>
      var i := LiveByTitle(old(store.docs), titulo).value;
      var r := AddVersion(old(store.docs)[i], old(store.nextId), contenido, DateOrNow(fechaVigencia, now), now);
      (r.Failed? ==> status == r.status && store.docs == old(store.docs) && store.nextId == old(store.nextId))
      && (r.Saved? ==> status == 200 && store.docs == old(store.docs)[i := r.doc] && store.nextId == old(store.nextId) + 1)
    ensures LiveByTitle(old(store.docs), titulo).None? ==>
      if titulo in DocumentValidator.ValidTitles && contenido != "" then
        status == 201 && store.nextId == old(store.nextId) + 2
        && store.docs == old(store.docs)
             + [NewDocument(old(store.nextId), old(store.nextId) + 1, titulo, contenido, DateOrNow(fechaVigencia, now), now)]
      else
        status == 500 && store.docs == old(store.docs) && store.nextId == old(store.nextId)
  {
    var found := LiveByTitle(store.docs, titulo);
    if found.Some? {
      var r := AddVersion(store.docs[found.value], store.nextId, contenido, DateOrNow(fechaVigencia, now), now);
      if r.Failed? {
        return r.status;
      }
      store.docs := store.docs[found.value := r.doc];
      store.nextId := store.nextId + 1;
      return 200;
    }
    if titulo !in DocumentValidator.ValidTitles || contenido == "" {
      return 500;
    }
    var d := NewDocument(store.nextId, store.nextId + 1, titulo, contenido, DateOrNow(fechaVigencia, now), now);
    store.docs := store.docs + [d];
    store.nextId := store.nextId + 2;
    status := 201;
  }

  /** Applying a per-document operation found by id: 404 for an unknown id. */
  method ApplyToDocument(store: DocumentStore, documentId: Oid, r: Outcome) returns (status: int)
    requires DocById(store.docs, documentId).Some?
    modifies store
    ensures r.Failed? ==> status == r.status && store.docs == old(store.docs)
    ensures r.Saved? ==> status == 200 && store.docs == old(store.docs)[DocById(old(store.docs), documentId).value := r.doc]
    ensures store.nextId == old(store.nextId)
  {
    if r.Failed? {
      return r.status;
    }
    store.docs := store.docs[DocById(store.docs, documentId).value := r.doc];
    status := 200;
  }

  /** `updateRegulatoryDocument`: 404 for an unknown id (a deleted document is updated
      like a live one), then AddVersion. */
  method UpdateRegulatoryDocument(store: DocumentStore, documentId: Oid, contenido: string, fechaVigencia: Option<Time>, now: Time)
    returns (status: int)
    modifies store
    ensures DocById(old(store.docs), documentId).None? ==> status == 404 && store.docs == old(store.docs)
    ensures DocById(old(store.docs), documentId).Some? ==>
      var i := DocById(old(store.docs), documentId).value;
      var r := AddVersion(old(store.docs)[i], old(store.nextId), contenido, DateOrNow(fechaVigencia, now), now);
      (r.Failed? ==> status == r.status && store.docs == old(store.docs) && store.nextId == old(store.nextId))
      && (r.Saved? ==> status == 200 && store.docs == old(store.docs)[i := r.doc] && store.nextId == old(store.nextId) + 1)
    ensures DocById(old(store.docs), documentId).None? ==> store.nextId == old(store.nextId)
  {
    var found := DocById(store.docs, documentId);
    if found.None? {
      return 404;
    }
    var r := AddVersion(store.docs[found.value], store.nextId, contenido, DateOrNow(fechaVigencia, now), now);
    status := ApplyToDocument(store, documentId, r);
    if r.Saved? {
      store.nextId := store.nextId + 1;
    }
  }

  /** `deleteRegulatoryDocument`. */
  method DeleteRegulatoryDocument(store: DocumentStore, documentId: Oid, now: Time) returns (status: int)
    modifies store
    ensures DocById(old(store.docs), documentId).None? ==> status == 404 && store.docs == old(store.docs)
    ensures DocById(old(store.docs), documentId).Some? ==>
      var i := DocById(old(store.docs), documentId).value;
      var r := DeleteDocument(old(store.docs)[i], now);
      (r.Failed? ==> status == 400 && store.docs == old(store.docs))
      && (r.Saved? ==> status == 200 && store.docs == old(store.docs)[i := r.doc])
    ensures store.nextId == old(store.nextId)
  {
    var found := DocById(store.docs, documentId);
    if found.None? {
      return 404;
    }
    status := ApplyToDocument(store, documentId, DeleteDocument(store.docs[found.value], now));
  }

  /** `restoreRegulatoryDocument`. */
  method RestoreRegulatoryDocument(store: DocumentStore, documentId: Oid, now: Time) returns (status: int)
    modifies store
    ensures DocById(old(store.docs), documentId).None? ==> status == 404 && store.docs == old(store.docs)
    ensures DocById(old(store.docs), documentId).Some? ==>
      var i := DocById(old(store.docs), documentId).value;
      var r := RestoreDocument(old(store.docs)[i], now);
      (r.Failed? ==> status == 400 && store.docs == old(store.docs))
      && (r.Saved? ==> status == 200 && store.docs == old(store.docs)[i := r.doc])
    ensures store.nextId == old(store.nextId)
  {
    var found := DocById(store.docs, documentId);
    if found.None? {
      return 404;
    }
    status := ApplyToDocument(store, documentId, RestoreDocument(store.docs[found.value], now));
  }

  /** `deleteRegulatoryDocumentVersion`. */
  method DeleteRegulatoryDocumentVersion(store: DocumentStore, documentId: Oid, wanted: string, now: Time) returns (status: int)
    modifies store
    ensures DocById(old(store.docs), documentId).None? ==> status == 404 && store.docs == old(store.docs)
    ensures DocById(old(store.docs), documentId).Some? ==>
      var i := DocById(old(store.docs), documentId).value;
      var r := DeleteVersion(old(store.docs)[i], wanted, now);
      (r.Failed? ==> status == r.status && store.docs == old(store.docs))
      && (r.Saved? ==> status == 200 && store.docs == old(store.docs)[i := r.doc])
    ensures store.nextId == old(store.nextId)
  {
    var found := DocById(store.docs, documentId);
    if found.None? {
      return 404;
    }
    status := ApplyToDocument(store, documentId, DeleteVersion(store.docs[found.value], wanted, now));
  }

  /** `restoreRegulatoryDocumentVersion`. */
  method RestoreRegulatoryDocumentVersion(store: DocumentStore, documentId: Oid, versionId: Oid, now: Time) returns (status: int)
    modifies store
    ensures DocById(old(store.docs), documentId).None? ==> status == 404 && store.docs == old(store.docs)
    ensures DocById(old(store.docs), documentId).Some? ==>
      var i := DocById(old(store.docs), documentId).value;
      var r := RestoreVersion(old(store.docs)[i], versionId, now);
      (r.Failed? ==> status == r.status && store.docs == old(store.docs))
      && (r.Saved? ==> status == 200 && store.docs == old(store.docs)[i := r.doc])
    ensures store.nextId == old(store.nextId)
  {
    var found := DocById(store.docs, documentId);
    if found.None? {
      return 404;
    }
    status := ApplyToDocument(store, documentId, RestoreVersion(store.docs[found.value], versionId, now));
  }
}
