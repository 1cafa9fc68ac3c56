/** The request-body validator for regulatory documents
    (src/middlewares/validateRegulatoryDocument.js). Each chain runs all its checks
    (no bail), so one field can contribute several errors; errors are listed in
    chain order. The ISO 8601 date check is a library predicate and is an input. */
module DocumentValidator {
  import opened Base

  /** A body field: absent (`undefined`), a string, or another JSON value together with
      the string the sanitisers make of it. */
  datatype Field = Absent | Str(s: string) | NonStr(text: string)

  datatype ValidationError = ValidationError(field: string, message: string)

  const ValidTitles: set<string> := {"Política de privacidad", "Términos y condiciones", "Deslinde legal"}

  /** The string a sanitiser or a string check sees: `undefined` becomes "". */
  function Text(f: Field): string {
    match f
    case Absent => ""
    case Str(s) => s
    case NonStr(t) => t
  }

  /** JavaScript's `\s`, which validator.js `trim` strips: the ASCII blanks, the no-break
      and other Unicode space separators, the line and paragraph separators and the BOM. */
  predicate IsSpace(c: char) {
    c == ' ' || c == '\t' || c == '\n' || c == '\r' || c == '\U{000B}' || c == '\U{000C}'
    || c == '\U{00A0}' || c == '\U{1680}' || ('\U{2000}' <= c <= '\U{200A}')
    || c == '\U{2028}' || c == '\U{2029}' || c == '\U{202F}' || c == '\U{205F}'
    || c == '\U{3000}' || c == '\U{FEFF}'
  }

  /** `r` is `s` with some whitespace cut from each end. */
  predicate MiddleOf(r: string, s: string) {
    exists i, j :: 0 <= i <= j <= |s| && r == s[i..j]
      && (forall k :: 0 <= k < i ==> IsSpace(s[k])) && (forall k :: j <= k < |s| ==> IsSpace(s[k]))
  }

  /** Whitespace removed at both ends. */
  function Trim(s: string): (r: string)
    ensures |r| <= |s|
    ensures |r| > 0 ==> !IsSpace(r[0]) && !IsSpace(r[|r| - 1])
    ensures forall k :: 0 <= k < |s| && !IsSpace(s[k]) ==> |r| > 0
    ensures MiddleOf(r, s)
    decreases |s|
  {
    if |s| == 0 then
      assert s == s[0..0];
      s
    else if IsSpace(s[0]) then
      MiddleAfterFront(Trim(s[1..]), s);
      Trim(s[1..])
    else if IsSpace(s[|s| - 1]) then
      MiddleBeforeBack(Trim(s[..|s| - 1]), s);
      Trim(s[..|s| - 1])
    else
      assert s == s[0..|s|];
      s
  }

  /** A middle of `s` without its leading whitespace character is a middle of `s`. */
  lemma MiddleAfterFront(r: string, s: string)
    requires |s| > 0 && IsSpace(s[0]) && MiddleOf(r, s[1..])
    ensures MiddleOf(r, s)
  {
    var t := s[1..];
    var i, j :| 0 <= i <= j <= |t| && r == t[i..j]
      && (forall k :: 0 <= k < i ==> IsSpace(t[k])) && (forall k :: j <= k < |t| ==> IsSpace(t[k]));
    assert r == s[i + 1..j + 1];
    assert forall k :: 1 <= k < i + 1 ==> s[k] == t[k - 1];
    assert forall k :: j + 1 <= k < |s| ==> s[k] == t[k - 1];
  }

  /** A middle of `s` without its trailing whitespace character is a middle of `s`. */
  lemma MiddleBeforeBack(r: string, s: string)
    requires |s| > 0 && IsSpace(s[|s| - 1]) && MiddleOf(r, s[..|s| - 1])
    ensures MiddleOf(r, s)
  {
    var t := s[..|s| - 1];
    var i, j :| 0 <= i <= j <= |t| && r == t[i..j]
      && (forall k :: 0 <= k < i ==> IsSpace(t[k])) && (forall k :: j <= k < |t| ==> IsSpace(t[k]));
    assert r == s[i..j];
    forall k | 0 <= k < i
      ensures IsSpace(s[k])
    {
      assert s[k] == t[k];
    }
    forall k | j <= k < |s|
      ensures IsSpace(s[k])
    {
      if k < |t| {
        assert s[k] == t[k];
      }
    }
  }

  predicate IsDigit(c: char) {
    '0' <= c <= '9'
  }

  /** `\d+`. */
  predicate Digits(s: string) {
    |s| > 0 && forall k :: 0 <= k < |s| ==> IsDigit(s[k])
  }

  /** `^\d+(\.\d+)?$`. */
  predicate VersionFormat(s: string) {
    Digits(s) || exists k :: 0 < k < |s| - 1 && s[k] == '.' && Digits(s[..k]) && Digits(s[k + 1..])
  }

  const TituloNotString := ValidationError("titulo", "El título debe ser un texto válido.")
  const TituloMissing := ValidationError("titulo", "El título es obligatorio.")
  const TituloNotListed := ValidationError("titulo", "El título debe ser válido (Política de privacidad, Términos y condiciones, Deslinde legal).")
  const ContenidoNotString := ValidationError("contenido", "El contenido debe ser un texto válido.")
  const ContenidoMissing := ValidationError("contenido", "El contenido es obligatorio.")
  const FechaNotIso := ValidationError("fecha_vigencia", "La fecha de vigencia debe ser una fecha válida (ISO 8601).")
  const VersionMalformed := ValidationError("version", "La versión debe estar en el formato correcto, por ejemplo, 1.0, 2.0.")

  /** One check of a chain: its error unless the check passes. */
  function ErrorUnless(ok: bool, e: ValidationError): (r: seq<ValidationError>)
    ensures r == [] <==> ok
    ensures forall k :: 0 <= k < |r| ==> r[k] == e
  {
    if ok then [] else [e]
  }

  /** The `titulo` chain: isString, then trim, notEmpty and isIn on the trimmed text. */
  function TituloErrors(f: Field): (errs: seq<ValidationError>)
    ensures errs == [] <==> f.Str? && Trim(f.s) in ValidTitles
    ensures forall k :: 0 <= k < |errs| ==> errs[k].field == "titulo"
  {
    var t := Trim(Text(f));
    assert "" !in ValidTitles;
    ErrorUnless(f.Str?, TituloNotString) + ErrorUnless(t != "", TituloMissing) + ErrorUnless(t in ValidTitles, TituloNotListed)
  }

  /** The `contenido` chain: isString and notEmpty, without trimming. */
  function ContenidoErrors(f: Field): (errs: seq<ValidationError>)
    ensures errs == [] <==> f.Str? && f.s != ""
    ensures forall k :: 0 <= k < |errs| ==> errs[k].field == "contenido"
  {
    ErrorUnless(f.Str?, ContenidoNotString) + ErrorUnless(Text(f) != "", ContenidoMissing)
  }

  /** The optional `fecha_vigencia` chain. */
  function FechaErrors(f: Field, isIso: string -> bool): (errs: seq<ValidationError>)
    ensures errs == [] <==> f.Absent? || isIso(Text(f))
    ensures |errs| <= 1
  {
    ErrorUnless(f.Absent? || isIso(Text(f)), FechaNotIso)
  }

  /** The optional `version` chain. */
  function VersionErrors(f: Field): (errs: seq<ValidationError>)
    ensures errs == [] <==> f.Absent? || VersionFormat(Text(f))
    ensures |errs| <= 1
  {
    ErrorUnless(f.Absent? || VersionFormat(Text(f)), VersionMalformed)
  }

  /** `validateRegulatoryDocument`: every error of the four chains, and `next` only when there is none. */
  function ValidateRegulatoryDocument(titulo: Field, contenido: Field, fechaVigencia: Field, version: Field,
                                      isIso: string -> bool): (r: (Gate, seq<ValidationError>))
    ensures r.0 == Next <==> r.1 == []
    ensures r.0 != Next ==> r.0 == Reject(400)
    ensures r.1 == [] <==>
      titulo.Str? && Trim(titulo.s) in ValidTitles
      && contenido.Str? && contenido.s != ""
      && (fechaVigencia.Absent? || isIso(Text(fechaVigencia)))
      && (version.Absent? || VersionFormat(Text(version)))
  {
    var t, c, f, v := TituloErrors(titulo), ContenidoErrors(contenido), FechaErrors(fechaVigencia, isIso), VersionErrors(version);
    var errs := t + c + f + v;
    assert |errs| == |t| + |c| + |f| + |v|;
    if errs == [] then (Next, []) else (Reject(400), errs)
  }

  /** A missing title reports all three title errors, as the chain does not bail. */
  lemma MissingTitleReportsThreeErrors()
    ensures |TituloErrors(Absent)| == 3
  {
    assert Trim("") == "";
    assert "" !in ValidTitles;
  }

  /** Trimming strips one blank on each side of a text that has none at its ends. */
  lemma TrimPadded(s: string, before: char, after: char)
    requires IsSpace(before) && IsSpace(after)
    requires |s| > 0 && !IsSpace(s[0]) && !IsSpace(s[|s| - 1])
    ensures Trim([before] + s + [after]) == s
  {
    var p := [before] + s + [after];
    var q := s + [after];
    assert p[1..] == q;
    assert q[0] == s[0];
    assert q[..|q| - 1] == s;
    assert Trim(q) == Trim(s);
  }

  /** A valid title with a blank of any kind on each side is accepted. */
  lemma PaddedTitleIsAccepted(s: string, before: char, after: char)
    requires s in ValidTitles
    requires IsSpace(before) && IsSpace(after)
    requires !IsSpace(s[0]) && !IsSpace(s[|s| - 1])
    ensures TituloErrors(Str([before] + s + [after])) == []
  {
    TrimPadded(s, before, after);
  }

  /** A title led by a no-break space is trimmed to a valid title and accepted. */
  lemma NoBreakSpaceTitleIsAccepted()
    ensures TituloErrors(Str(['\U{00A0}'] + "Deslinde legal")) == []
  {
    var t := "Deslinde legal";
    var p := ['\U{00A0}'] + t;
    assert p[1..] == t;
    assert !IsSpace(t[0]) && !IsSpace(t[|t| - 1]);
    assert Trim(p) == Trim(t) == t;
  }
}
