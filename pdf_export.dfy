/** lib/pdf-export.ts: the HTML a bed's PDF is printed from, and its file name.
    The date in the file name (`new Date().toISOString().slice(0, 10)`) is the
    parameter `date`. */
module PdfExport {
  import opened Optional
  import opened Text
  import opened Html
  import opened Types

  // ---------------------------------------------------------------------------
  // escapeHtml

  /** The replacement table of `escapeHtml`. */
  function EscapeHtmlChar(c: char): (r: string)
    ensures c !in "&<>\"'" ==> r == [c]
  {
    if c == '&' then "&amp;"
    else if c == '<' then "&lt;"
    else if c == '>' then "&gt;"
    else if c == '"' then "&quot;"
    else if c == '\'' then "&#039;"
    else [c]
  }

  /** No replacement holds a raw `<`, `>`, `"` or `'`. */
  lemma EscapeHtmlCharSafe()
    ensures forall x :: '<' !in EscapeHtmlChar(x) && '>' !in EscapeHtmlChar(x)
    ensures forall x :: '"' !in EscapeHtmlChar(x) && '\'' !in EscapeHtmlChar(x)
  {
    forall x ensures '<' !in EscapeHtmlChar(x) && '>' !in EscapeHtmlChar(x)
                  && '"' !in EscapeHtmlChar(x) && '\'' !in EscapeHtmlChar(x) {
      if x in "&<>\"'" {
        assert x == '&' || x == '<' || x == '>' || x == '"' || x == '\'';
      }
    }
  }

  /** `escapeHtml`: every one of `& < > " '` becomes its character reference. */
  function EscapeHtml(s: string): (r: string)
    ensures '<' !in r && '>' !in r && '"' !in r && '\'' !in r
  {
    EscapeHtmlCharSafe();
    MapCharsAvoids(s, EscapeHtmlChar, '<');
    MapCharsAvoids(s, EscapeHtmlChar, '>');
    MapCharsAvoids(s, EscapeHtmlChar, '"');
    MapCharsAvoids(s, EscapeHtmlChar, '\'');
    MapChars(s, EscapeHtmlChar)
  }

  /** Escaping loses nothing: decoding the references gives the text back. */
  lemma {:induction false} EscapeHtmlRoundTrip(s: string)
    ensures Unescape(EscapeHtml(s)) == s
  {
    if s != [] {
      EscapeHtmlRoundTrip(s[1..]);
      UnescapeStep(EscapeHtmlChar(s[0]), s[0], EscapeHtml(s[1..]));
      assert s == [s[0]] + s[1..];
    }
  }

  /** Text without any of the five characters is left as it is. */
  lemma {:induction false} EscapeHtmlKeepsPlainText(s: string)
    requires forall i :: 0 <= i < |s| ==> s[i] !in "&<>\"'"
    ensures EscapeHtml(s) == s
  {
    if s != [] {
      EscapeHtmlKeepsPlainText(s[1..]);
      assert s == [s[0]] + s[1..];
    }
  }

  // ---------------------------------------------------------------------------
  // Sections

  /** `parts.join('')` */
  function Join(parts: seq<string>): string {
    if parts == [] then [] else parts[0] + Join(parts[1..])
  }

  lemma {:induction false} JoinAppend(a: seq<string>, b: seq<string>)
    ensures Join(a + b) == Join(a) + Join(b)
  {
    if a != [] {
      assert (a + b)[0] == a[0] && (a + b)[1..] == a[1..] + b;
      JoinAppend(a[1..], b);
    } else {
      assert a + b == b;
    }
  }

  /** JavaScript truthiness of an optional string. */
  predicate Truthy(s: Option<string>) {
    s.Some? && s.value != []
  }

  function NameLine(name: string): string { "<p><strong>Name:</strong> " + EscapeHtml(name) + "</p>" }
  function AgeLine(age: int): string { "<p><strong>Age:</strong> " + Dec(age) + "</p>" }
  function GenderLine(g: Gender): string { "<p><strong>Gender:</strong> " + EscapeHtml(GenderName(g)) + "</p>" }
  function AdmissionLine(d: string): string { "<p><strong>Admission:</strong> " + EscapeHtml(d) + "</p>" }
  function DischargeLine(d: string): string { "<p><strong>Discharge:</strong> " + EscapeHtml(d) + "</p>" }

  /** The lines `buildPatientSection` pushes, in order. */
  function PatientLines(p: PatientData): seq<string> {
    (if Truthy(p.name) then [NameLine(p.name.value)] else [])
    + (if p.age.Some? then [AgeLine(p.age.value)] else [])
    + (if p.gender.Some? then [GenderLine(p.gender.value)] else [])
    + (if Truthy(p.admissionDate) then [AdmissionLine(p.admissionDate.value)] else [])
    + (if Truthy(p.dischargeDate) then [DischargeLine(p.dischargeDate.value)] else [])
  }

  const PATIENT_HEAD := "<div class=\"section\"><h2>Patient info</h2>"
  const SECTION_TAIL := "</div>"

  function PatientSection(p: PatientData): string {
    var lines := PatientLines(p);
    if lines == [] then "" else PATIENT_HEAD + Join(lines) + SECTION_TAIL
  }

  /** `buildPatientSection`: pushes a line per present field. */
  method BuildPatientSection(p: PatientData) returns (html: string)
    ensures html == PatientSection(p)
  {
    var parts: seq<string> := [];
    if Truthy(p.name) { parts := parts + [NameLine(p.name.value)]; }
    assert parts == (if Truthy(p.name) then [NameLine(p.name.value)] else []);
    ghost var a := parts;
    if p.age.Some? { parts := parts + [AgeLine(p.age.value)]; }
    assert parts == a + (if p.age.Some? then [AgeLine(p.age.value)] else []);
    a := parts;
    if p.gender.Some? { parts := parts + [GenderLine(p.gender.value)]; }
    assert parts == a + (if p.gender.Some? then [GenderLine(p.gender.value)] else []);
    a := parts;
    if Truthy(p.admissionDate) { parts := parts + [AdmissionLine(p.admissionDate.value)]; }
    assert parts == a + (if Truthy(p.admissionDate) then [AdmissionLine(p.admissionDate.value)] else []);
    a := parts;
    if Truthy(p.dischargeDate) { parts := parts + [DischargeLine(p.dischargeDate.value)]; }
    assert parts == a + (if Truthy(p.dischargeDate) then [DischargeLine(p.dischargeDate.value)] else []);
    if |parts| == 0 { return ""; }
    html := PATIENT_HEAD + Join(parts) + SECTION_TAIL;
  }

  /** The patient section is empty exactly when there is no name, age,
      gender, admission or discharge date; an age is printed whenever present,
      0 included. */
  lemma PatientSectionContents(p: PatientData)
    ensures PatientSection(p) == "" <==>
      !(Truthy(p.name) || p.age.Some? || p.gender.Some? || Truthy(p.admissionDate) || Truthy(p.dischargeDate))
    ensures p.age.Some? ==> AgeLine(p.age.value) in PatientLines(p)
  {
    var lines := PatientLines(p);
    if p.age.Some? {
      var before := if Truthy(p.name) then 1 else 0;
      assert lines[before] == AgeLine(p.age.value);
    }
  }

  const PNG_DATA_PREFIX := "data:image/png;base64,"

  /** The image source: the stored image if it is already a data URL, else a
      base64 PNG data URL built from it. */
  function ImageSrc(image: string): (src: string)
    ensures StartsWith(src, "data:")
    ensures StartsWith(image, "data:") ==> src == image
    ensures !StartsWith(image, "data:") ==> src == PNG_DATA_PREFIX + image
  {
    if StartsWith(image, "data:") then image
    else
      assert (PNG_DATA_PREFIX + image)[..5] == "data:";
      PNG_DATA_PREFIX + image
  }

  lemma ImageSrcIdempotent(image: string)
    ensures ImageSrc(ImageSrc(image)) == ImageSrc(image)
  {
  }

  function DxPlanLines(content: DxPlanContent): seq<string> {
    (if Truthy(content.text) then ["<p>" + EscapeHtml(content.text.value) + "</p>"] else [])
    + (if Truthy(content.image)
       then ["<p><img class=\"signature\" src=\"" + ImageSrc(content.image.value) + "\" alt=\"handwriting\" /></p>"]
       else [])
  }

  function DxPlanSection(title: string, content: Option<DxPlanContent>): string {
    if content.None? || (!Truthy(content.value.text) && !Truthy(content.value.image)) then ""
    else "<div class=\"section\"><h2>" + EscapeHtml(title) + "</h2>" + Join(DxPlanLines(content.value)) + "</div>"
  }

  /** `buildDxPlanSection` */
  method BuildDxPlanSection(title: string, content: Option<DxPlanContent>) returns (html: string)
    ensures html == DxPlanSection(title, content)
  {
    if content.None? || (!Truthy(content.value.text) && !Truthy(content.value.image)) { return ""; }
    var c := content.value;
    var parts: seq<string> := [];
    if Truthy(c.text) { parts := parts + ["<p>" + EscapeHtml(c.text.value) + "</p>"]; }
    if Truthy(c.image) {
      var src := ImageSrc(c.image.value);
      parts := parts + ["<p><img class=\"signature\" src=\"" + src + "\" alt=\"handwriting\" /></p>"];
    }
    assert parts == DxPlanLines(c);
    html := "<div class=\"section\"><h2>" + EscapeHtml(title) + "</h2>" + Join(parts) + "</div>";
  }

  /** The Dx/Plan section is empty exactly when there is neither text nor image. */
  lemma DxPlanSectionEmpty(title: string, content: Option<DxPlanContent>)
    ensures DxPlanSection(title, content) == "" <==>
      content.None? || (!Truthy(content.value.text) && !Truthy(content.value.image))
  {
  }

  /** The cell text of an investigation row: the escaped value, '' when absent. */
  function Cell(v: Option<string>): (r: string)
    ensures '<' !in r
    ensures Unescape(r) == v.GetOr("")
  {
    EscapeHtmlRoundTrip(v.GetOr(""));
    EscapeHtml(v.GetOr(""))
  }

  function InvRowHtml(r: InvRow): string {
    "<tr><td>" + Cell(r.date) + "</td><td>" + Cell(r.investigation) + "</td><td>" + Cell(r.findings) + "</td></tr>"
  }

  /** One `<tr>` per row, in order. */
  function InvRowsHtml(rows: seq<InvRow>): string {
    Join(seq(|rows|, i requires 0 <= i < |rows| => InvRowHtml(rows[i])))
  }

  const INV_TABLE_HEAD := "<div class=\"section\"><h2>Investigations</h2><table><thead><tr><th>Date</th><th>Investigation</th><th>Findings</th></tr></thead><tbody>"
  const INV_TABLE_TAIL := "</tbody></table></div>"

  /** `buildInvTable`: nothing for no rows, else one table row per row. */
  function InvTable(rows: seq<InvRow>): (html: string)
    ensures html == "" <==> rows == []
  {
    if rows == [] then "" else INV_TABLE_HEAD + InvRowsHtml(rows) + INV_TABLE_TAIL
  }

  // ---------------------------------------------------------------------------
  // buildBedPdfHtml

  /** The heading `title – Ward n – Bed k` (en dashes), title and ward number escaped. */
  function BedHeading(bed: Bed, ward: Ward): string {
    EscapeHtml(ward.title) + " – Ward " + EscapeHtml(ward.wardNumber.GetOr("")) + " – Bed " + Dec(bed.number)
  }

  const DOC_HEAD := "<!DOCTYPE html><html><head><meta charset=\"utf-8\"/></head><body>"
  const DOC_TAIL := "</body></html>"

  /** The patient, Dx, Plan and Investigations sections, in that order, each
      behind the guard `buildBedPdfHtml` puts on it. */
  function BedBody(bed: Bed): string {
    if bed.patient.None? then ""
    else
      var p := bed.patient.value;
      PatientSection(p)
      + (if p.dx.Some? then DxPlanSection("Dx", p.dx) else "")
      + (if p.plan.Some? then DxPlanSection("Plan", p.plan) else "")
      + (if p.inv.Some? then InvTable(p.inv.value) else "")
  }

  /** `buildBedPdfHtml` */
  function BedPdfHtml(bed: Bed, ward: Ward): string {
    DOC_HEAD + "<h1>" + BedHeading(bed, ward) + "</h1>" + BedBody(bed) + DOC_TAIL
  }

  /** A bed without a patient prints only the heading; with one, the body is
      the four sections in order, an absent field giving an empty section. */
  lemma BedBodySections(bed: Bed)
    ensures bed.patient.None? ==> BedBody(bed) == ""
    ensures bed.patient.Some? ==>
      var p := bed.patient.value;
      BedBody(bed) == PatientSection(p) + DxPlanSection("Dx", p.dx) + DxPlanSection("Plan", p.plan)
                      + InvTable(p.inv.GetOr([]))
  {
  }

  // ---------------------------------------------------------------------------
  // sanitizeFilenamePart

  /** `\w`: ASCII letters, digits and underscore. */
  predicate IsWordChar(c: char) {
    ('A' <= c <= 'Z') || ('a' <= c <= 'z') || ('0' <= c <= '9') || c == '_'
  }

  predicate IsHyphen(c: char) { c == '-' }

  /** `.replace(/[^\w\s-]/g, '')` */
  function KeepFilenameChars(s: string): (r: string)
    ensures forall i :: 0 <= i < |r| ==> IsWordChar(r[i]) || IsSpace(r[i]) || r[i] == '-'
    ensures |r| <= |s|
  {
    if s == [] then []
    else if IsWordChar(s[0]) || IsSpace(s[0]) || s[0] == '-' then [s[0]] + KeepFilenameChars(s[1..])
    else KeepFilenameChars(s[1..])
  }

  /** The longest suffix of `s` that does not start with a `p` character. */
  function DropWhile(s: string, p: char -> bool): (r: string)
    ensures |r| <= |s| && r == s[|s| - |r|..]
    ensures r == [] || !p(r[0])
    ensures forall i :: 0 <= i < |s| - |r| ==> p(s[i])
  {
    if s == [] || !p(s[0]) then s else DropWhile(s[1..], p)
  }

  /** `.replace(/x+/g, rep)`: each maximal run of characters satisfying `p`
      becomes the single character `rep`. */
  function CollapseRuns(s: string, p: char -> bool, rep: char): (r: string)
    ensures forall i :: 0 <= i < |r| ==> r[i] == rep || (!p(r[i]) && r[i] in s)
    ensures s == [] <==> r == []
    ensures s != [] && !p(s[0]) ==> r[0] == s[0]
    ensures s != [] && p(s[0]) ==> r[0] == rep
    decreases |s|
  {
    if s == [] then []
    else if p(s[0]) then
      var rest := DropWhile(s, p);
      var tail := CollapseRuns(rest, p, rep);
      assert forall c :: c in rest ==> c in s;
      [rep] + tail
    else
      var tail := CollapseRuns(s[1..], p, rep);
      assert forall c :: c in s[1..] ==> c in s;
      [s[0]] + tail
  }

  /** No two hyphens in a row. */
  predicate NoDoubleHyphen(s: string) {
    forall i :: 0 <= i < |s| - 1 ==> !(s[i] == '-' && s[i + 1] == '-')
  }

  /** After `.replace(/-+/g, '-')` no two hyphens are adjacent. */
  lemma {:induction false} CollapseHyphensNoDouble(s: string)
    ensures NoDoubleHyphen(CollapseRuns(s, IsHyphen, '-'))
    decreases |s|
  {
    if s != [] {
      var r := CollapseRuns(s, IsHyphen, '-');
      if IsHyphen(s[0]) {
        var rest := DropWhile(s, IsHyphen);
        CollapseHyphensNoDouble(rest);
        assert r == ['-'] + CollapseRuns(rest, IsHyphen, '-');
      } else {
        CollapseHyphensNoDouble(s[1..]);
        assert r == [s[0]] + CollapseRuns(s[1..], IsHyphen, '-');
      }
    }
  }

  /** `.replace(/^-|-$/g, '')`: one leading and one trailing hyphen removed. */
  function StripEdgeHyphens(s: string): (r: string)
    ensures exists a, b :: 0 <= a <= b <= |s| && r == s[a..b]
    ensures NoDoubleHyphen(s) ==> r == [] || r[0] != '-'
  {
    var t := if s != [] && s[0] == '-' then s[1..] else s;
    var u := if t != [] && t[|t| - 1] == '-' then t[..|t| - 1] else t;
    var a := if s != [] && s[0] == '-' then 1 else 0;
    assert t == s[a..];
    assert u == s[a..a + |u|];
    assert NoDoubleHyphen(s) && u != [] && a == 1 ==> u[0] == s[1];
    u
  }

  /** The characters a sanitised part is made of: `[A-Za-z0-9_-]`. */
  predicate FilenameSafe(s: string) {
    forall i :: 0 <= i < |s| ==> IsWordChar(s[i]) || s[i] == '-'
  }

  /** `sanitizeFilenamePart(s, maxLen)` */
  function SanitizeFilenamePart(s: string, maxLen: nat): string {
    Take(StripEdgeHyphens(CollapseRuns(CollapseRuns(KeepFilenameChars(s), IsSpace, '-'), IsHyphen, '-')), maxLen)
  }

  lemma InfixKeepsShape(s: string, a: int, b: int)
    requires 0 <= a <= b <= |s| && FilenameSafe(s) && NoDoubleHyphen(s)
    ensures FilenameSafe(s[a..b]) && NoDoubleHyphen(s[a..b])
  {
    var t := s[a..b];
    forall i | 0 <= i < |t| - 1 ensures !(t[i] == '-' && t[i + 1] == '-') {
      assert t[i] == s[a + i] && t[i + 1] == s[a + i + 1];
    }
  }

  /** Collapsing the `p` runs of text made of word characters, hyphens and
      `p` characters into hyphens leaves only word characters and hyphens. */
  lemma CollapseToHyphenSafe(s: string, p: char -> bool)
    requires forall i :: 0 <= i < |s| ==> IsWordChar(s[i]) || s[i] == '-' || p(s[i])
    ensures FilenameSafe(CollapseRuns(s, p, '-'))
  {
    var r := CollapseRuns(s, p, '-');
    forall i | 0 <= i < |r| ensures IsWordChar(r[i]) || r[i] == '-' {
      if r[i] != '-' {
        var j :| 0 <= j < |s| && s[j] == r[i];
      }
    }
  }

  /** A sanitised part uses only `[A-Za-z0-9_-]`, has no two hyphens in a
      row, does not start with a hyphen and is at most `maxLen` long. */
  lemma SanitizeFilenamePartShape(s: string, maxLen: nat)
    ensures var r := SanitizeFilenamePart(s, maxLen);
      FilenameSafe(r) && NoDoubleHyphen(r) && (r == [] || r[0] != '-') && |r| <= maxLen
  {
    var k := KeepFilenameChars(s);
    var sp := CollapseRuns(k, IsSpace, '-');
    CollapseToHyphenSafe(k, IsSpace);
    var hy := CollapseRuns(sp, IsHyphen, '-');
    CollapseToHyphenSafe(sp, IsHyphen);
    CollapseHyphensNoDouble(sp);
    var st := StripEdgeHyphens(hy);
    var a, b :| 0 <= a <= b <= |hy| && st == hy[a..b];
    InfixKeepsShape(hy, a, b);
    var r := Take(st, maxLen);
    InfixKeepsShape(st, 0, |r|);
  }

  // ---------------------------------------------------------------------------
  // getBedPdfFilename

  /** The ward number in the file name: white-space runs become '-', and an
      absent or empty number becomes '0'. */
  function WardNumberPart(wardNumber: Option<string>): (r: string)
    ensures r != []
    ensures forall i :: 0 <= i < |r| ==> !IsSpace(r[i])
    ensures r == "0" <== wardNumber.None? || wardNumber.value == ""
  {
    var collapsed := CollapseRuns(wardNumber.GetOr(""), IsSpace, '-');
    if collapsed == [] then "0" else collapsed
  }

  /** `-name`, sanitised to at most 30 characters, for a non-blank name. */
  function NamePart(name: Option<string>): (r: string)
    ensures r == "" <==> !HasTextOpt(name)
    ensures r != "" ==> r == "-" + SanitizeFilenamePart(Trim(name.value), 30) && |r| <= 31
  {
    if name.Some? && Trim(name.value) != [] then
      SanitizeFilenamePartShape(Trim(name.value), 30);
      "-" + SanitizeFilenamePart(Trim(name.value), 30)
    else ""
  }

  /** Three parts in a row: the whole starts with the first and ends with
      the last. */
  function Concat3(first: string, middle: string, last: string): (r: string)
    ensures StartsWith(r, first) && EndsWith(r, last)
  {
    var r := first + middle + last;
    assert r[..|first|] == first;
    assert r[|r| - |last|..] == last;
    r
  }

  /** `{dept}-Ward{n}-Bed{k}`, the part of the file name before the patient. */
  function FilenamePrefix(bed: Bed, ward: Ward): string {
    SanitizeFilenamePart(ward.title, 40) + "-Ward" + WardNumberPart(ward.wardNumber) + "-Bed" + Dec(bed.number)
  }

  /** `getBedPdfFilename`: `{dept}-Ward{n}-Bed{k}[-{name}]-{date}.pdf`. */
  function BedPdfFilename(bed: Bed, ward: Ward, date: string): (r: string)
    ensures EndsWith(r, "-" + date + ".pdf")
    ensures StartsWith(r, SanitizeFilenamePart(ward.title, 40) + "-Ward" + WardNumberPart(ward.wardNumber) + "-Bed" + Dec(bed.number))
  {
    Concat3(FilenamePrefix(bed, ward), NamePart(if bed.patient.Some? then bed.patient.value.name else None), "-" + date + ".pdf")
  }
}
