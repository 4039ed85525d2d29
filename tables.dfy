/**
  The two canonical enumeration tables that replace the mock-data directives:
  the NIST SP 800-53 control identifiers, in 17 comment-labelled families, and
  the six-digit CCI identifiers. The tables are kept as structured constants
  and rendered to exactly the text the normalisers insert.
*/
module Tables {
  import opened Text

  /** One comment-labelled group of the control enumeration: the line
      `# <title> (<code>)` followed by one list item per control. */
  datatype Family = Family(title: string, code: string, controls: seq<string>)

  const AccessControlIds: seq<string> := [
      "AC-1", "AC-2", "AC-2(1)", "AC-2(2)", "AC-2(3)", "AC-2(4)", "AC-3", "AC-3(2)",
      "AC-4", "AC-5", "AC-6", "AC-6(1)", "AC-6(2)", "AC-7", "AC-8", "AC-10", "AC-11",
      "AC-12", "AC-14", "AC-17", "AC-17(1)", "AC-17(2)", "AC-18", "AC-19", "AC-20",
      "AC-21", "AC-22"]
  const AccessControl: Family := Family("Access Control", "AC", AccessControlIds)

  const AuditAndAccountabilityIds: seq<string> := [
      "AU-1", "AU-2", "AU-3", "AU-4", "AU-5", "AU-6", "AU-6(1)", "AU-6(3)", "AU-7", "AU-8",
      "AU-9", "AU-11", "AU-12"]
  const AuditAndAccountability: Family := Family("Audit and Accountability", "AU", AuditAndAccountabilityIds)

  const SecurityAssessmentIds: seq<string> := [
      "CA-1", "CA-2", "CA-3", "CA-5", "CA-6", "CA-7", "CA-8", "CA-9"]
  const SecurityAssessment: Family := Family("Security Assessment", "CA", SecurityAssessmentIds)

  const ConfigurationManagementIds: seq<string> := [
      "CM-1", "CM-2", "CM-3", "CM-4", "CM-5", "CM-6", "CM-7", "CM-8", "CM-9", "CM-10",
      "CM-11"]
  const ConfigurationManagement: Family := Family("Configuration Management", "CM", ConfigurationManagementIds)

  const ContingencyPlanningIds: seq<string> := [
      "CP-1", "CP-2", "CP-3", "CP-4", "CP-6", "CP-7", "CP-8", "CP-9", "CP-10"]
  const ContingencyPlanning: Family := Family("Contingency Planning", "CP", ContingencyPlanningIds)

  const IdentificationAndAuthenticationIds: seq<string> := [
      "IA-1", "IA-2", "IA-2(1)", "IA-2(2)", "IA-2(3)", "IA-2(8)", "IA-2(11)", "IA-3",
      "IA-4", "IA-5", "IA-5(1)", "IA-5(2)", "IA-6", "IA-7", "IA-8"]
  const IdentificationAndAuthentication: Family := Family("Identification and Authentication", "IA", IdentificationAndAuthenticationIds)

  const IncidentResponseIds: seq<string> := [
      "IR-1", "IR-2", "IR-3", "IR-4", "IR-5", "IR-6", "IR-7", "IR-8"]
  const IncidentResponse: Family := Family("Incident Response", "IR", IncidentResponseIds)

  const MaintenanceIds: seq<string> := [
      "MA-1", "MA-2", "MA-3", "MA-4", "MA-5", "MA-6"]
  const Maintenance: Family := Family("Maintenance", "MA", MaintenanceIds)

  const MediaProtectionIds: seq<string> := [
      "MP-1", "MP-2", "MP-3", "MP-4", "MP-5", "MP-6", "MP-7"]
  const MediaProtection: Family := Family("Media Protection", "MP", MediaProtectionIds)

  const PhysicalProtectionIds: seq<string> := [
      "PE-1", "PE-2", "PE-3", "PE-4", "PE-5", "PE-6", "PE-8", "PE-9", "PE-10", "PE-12",
      "PE-13", "PE-14", "PE-15", "PE-16"]
  const PhysicalProtection: Family := Family("Physical Protection", "PE", PhysicalProtectionIds)

  const PlanningIds: seq<string> := [
      "PL-1", "PL-2", "PL-4", "PL-8"]
  const Planning: Family := Family("Planning", "PL", PlanningIds)

  const PersonnelSecurityIds: seq<string> := [
      "PS-1", "PS-2", "PS-3", "PS-4", "PS-5", "PS-6", "PS-7", "PS-8"]
  const PersonnelSecurity: Family := Family("Personnel Security", "PS", PersonnelSecurityIds)

  const RiskAssessmentIds: seq<string> := [
      "RA-1", "RA-2", "RA-3", "RA-5"]
  const RiskAssessment: Family := Family("Risk Assessment", "RA", RiskAssessmentIds)

  const SystemAcquisitionIds: seq<string> := [
      "SA-1", "SA-2", "SA-3", "SA-4", "SA-5", "SA-8", "SA-9", "SA-10", "SA-11"]
  const SystemAcquisition: Family := Family("System Acquisition", "SA", SystemAcquisitionIds)

  const SystemProtectionIds: seq<string> := [
      "SC-1", "SC-2", "SC-3", "SC-4", "SC-5", "SC-7", "SC-8", "SC-10", "SC-12", "SC-13",
      "SC-15", "SC-17", "SC-18", "SC-19", "SC-20", "SC-21", "SC-22", "SC-23", "SC-28",
      "SC-39"]
  const SystemProtection: Family := Family("System Protection", "SC", SystemProtectionIds)

  const SystemIntegrityIds: seq<string> := [
      "SI-1", "SI-2", "SI-3", "SI-4", "SI-4(1)", "SI-4(2)", "SI-4(4)", "SI-4(5)",
      "SI-4(11)", "SI-5", "SI-6", "SI-7", "SI-8", "SI-10", "SI-11", "SI-12", "SI-16"]
  const SystemIntegrity: Family := Family("System Integrity", "SI", SystemIntegrityIds)

  const ProgramManagementIds: seq<string> := [
      "PM-1", "PM-2", "PM-3", "PM-4", "PM-5", "PM-6", "PM-7", "PM-9", "PM-10", "PM-11"]
  const ProgramManagement: Family := Family("Program Management", "PM", ProgramManagementIds)


  /** The families in the order the enumeration lists them. */
  const ControlFamilies: seq<Family> := [
    AccessControl, AuditAndAccountability, SecurityAssessment, ConfigurationManagement,
    ContingencyPlanning, IdentificationAndAuthentication, IncidentResponse, Maintenance,
    MediaProtection, PhysicalProtection, Planning, PersonnelSecurity,
    RiskAssessment, SystemAcquisition, SystemProtection, SystemIntegrity,
    ProgramManagement]

  /** The whole table, taken as a slice. The verifier evaluates functions
      applied to literal values outright; rendering the slice instead keeps
      the 190 identifiers from being rendered in every proof that mentions
      the enumeration. */
  const ListedFamilies: seq<Family> := ControlFamilies[0..|ControlFamilies|]

  /** The literals the invalid-literal remover deletes, in the order it tries them. */
  const InvalidLiterals: seq<string> := ["S-1", "S-23", "UA-16", "SI-56"]

  /** Indentation of a list item or comment inside the inserted enumerations. */
  const ItemIndent := "            "

  /** The fixed indentation the replacement puts after the anchor line. */
  const TenSpaces := "          "

  function RenderControls(controls: seq<string>): string {
    if |controls| == 0 then ""
    else "\n" + ItemIndent + "- " + controls[0] + RenderControls(controls[1..])
  }

  function RenderFamilies(fs: seq<Family>): string {
    if |fs| == 0 then ""
    else
      "\n" + ItemIndent + "# " + fs[0].title + " (" + fs[0].code + ")"
      + RenderControls(fs[0].controls) + RenderFamilies(fs[1..])
  }

  /** The value of `get_control_acronym_enum()` (and of `control_enum`): an
      `enum:` key whose items are the control identifiers, family by family,
      with no newline after the last item. */
  function ControlEnum(): string {
    "enum:" + RenderFamilies(ListedFamilies)
  }

  /** The number of control identifiers in a list of families. */
  function ControlCount(fs: seq<Family>): nat {
    if |fs| == 0 then 0 else |fs[0].controls| + ControlCount(fs[1..])
  }

  /** A character that may follow the dash of a control identifier. */
  predicate IdChar(c: char) {
    IsDigit(c) || c == '(' || c == ')'
  }

  /** A family code: two capital letters. */
  predicate UpperCode(code: string) {
    |code| == 2 && 'A' <= code[0] <= 'Z' && 'A' <= code[1] <= 'Z'
  }

  /** `v` is a control identifier of the family with code `code`: the code, a
      dash, then digits and parentheses only. */
  predicate IdShape(v: string, code: string) {
    && UpperCode(code) && |v| > 3
    && v[0] == code[0] && v[1] == code[1] && v[2] == '-'
    && forall k :: 3 <= k < |v| ==> IdChar(v[k])
  }

  /** A character of a family title: a letter other than `x`, or a space. */
  predicate TitleChar(c: char) {
    ('a' <= c <= 'z' && c != 'x') || ('A' <= c <= 'Z') || c == ' '
  }

  /** What the table guarantees of one family: every control carries the
      family's code and the comment title is a plain one-line word list. */
  predicate WellFormed(f: Family) {
    && UpperCode(f.code)
    && (forall i :: 0 <= i < |f.controls| ==> IdShape(f.controls[i], f.code))
    && forall k :: 0 <= k < |f.title| ==> TitleChar(f.title[k])
  }

  lemma AccessControlShaped()
    ensures forall i :: 0 <= i < |AccessControlIds| ==> IdShape(AccessControlIds[i], "AC")
  {
  }

  lemma AuditAndAccountabilityShaped()
    ensures forall i :: 0 <= i < |AuditAndAccountabilityIds| ==> IdShape(AuditAndAccountabilityIds[i], "AU")
  {
  }

  lemma SecurityAssessmentShaped()
    ensures forall i :: 0 <= i < |SecurityAssessmentIds| ==> IdShape(SecurityAssessmentIds[i], "CA")
  {
  }

  lemma ConfigurationManagementShaped()
    ensures forall i :: 0 <= i < |ConfigurationManagementIds| ==> IdShape(ConfigurationManagementIds[i], "CM")
  {
  }

  lemma ContingencyPlanningShaped()
    ensures forall i :: 0 <= i < |ContingencyPlanningIds| ==> IdShape(ContingencyPlanningIds[i], "CP")
  {
  }

  lemma IdentificationAndAuthenticationShaped()
    ensures forall i :: 0 <= i < |IdentificationAndAuthenticationIds| ==> IdShape(IdentificationAndAuthenticationIds[i], "IA")
  {
  }

  lemma IncidentResponseShaped()
    ensures forall i :: 0 <= i < |IncidentResponseIds| ==> IdShape(IncidentResponseIds[i], "IR")
  {
  }

  lemma MaintenanceShaped()
    ensures forall i :: 0 <= i < |MaintenanceIds| ==> IdShape(MaintenanceIds[i], "MA")
  {
  }

  lemma MediaProtectionShaped()
    ensures forall i :: 0 <= i < |MediaProtectionIds| ==> IdShape(MediaProtectionIds[i], "MP")
  {
  }

  lemma PhysicalProtectionShaped()
    ensures forall i :: 0 <= i < |PhysicalProtectionIds| ==> IdShape(PhysicalProtectionIds[i], "PE")
  {
  }

  lemma PlanningShaped()
    ensures forall i :: 0 <= i < |PlanningIds| ==> IdShape(PlanningIds[i], "PL")
  {
  }

  lemma PersonnelSecurityShaped()
    ensures forall i :: 0 <= i < |PersonnelSecurityIds| ==> IdShape(PersonnelSecurityIds[i], "PS")
  {
  }

  lemma RiskAssessmentShaped()
    ensures forall i :: 0 <= i < |RiskAssessmentIds| ==> IdShape(RiskAssessmentIds[i], "RA")
  {
  }

  lemma SystemAcquisitionShaped()
    ensures forall i :: 0 <= i < |SystemAcquisitionIds| ==> IdShape(SystemAcquisitionIds[i], "SA")
  {
  }

  lemma SystemProtectionShaped()
    ensures forall i :: 0 <= i < |SystemProtectionIds| ==> IdShape(SystemProtectionIds[i], "SC")
  {
  }

  lemma SystemIntegrityShaped()
    ensures forall i :: 0 <= i < |SystemIntegrityIds| ==> IdShape(SystemIntegrityIds[i], "SI")
  {
  }

  lemma ProgramManagementShaped()
    ensures forall i :: 0 <= i < |ProgramManagementIds| ==> IdShape(ProgramManagementIds[i], "PM")
  {
  }

  lemma AccessControlTitled()
    ensures forall k :: 0 <= k < |AccessControl.title| ==> TitleChar(AccessControl.title[k])
    ensures UpperCode(AccessControl.code)
  {
  }

  lemma AuditAndAccountabilityTitled()
    ensures forall k :: 0 <= k < |AuditAndAccountability.title| ==> TitleChar(AuditAndAccountability.title[k])
    ensures UpperCode(AuditAndAccountability.code)
  {
  }

  lemma SecurityAssessmentTitled()
    ensures forall k :: 0 <= k < |SecurityAssessment.title| ==> TitleChar(SecurityAssessment.title[k])
    ensures UpperCode(SecurityAssessment.code)
  {
  }

  lemma ConfigurationManagementTitled()
    ensures forall k :: 0 <= k < |ConfigurationManagement.title| ==> TitleChar(ConfigurationManagement.title[k])
    ensures UpperCode(ConfigurationManagement.code)
  {
  }

  lemma ContingencyPlanningTitled()
    ensures forall k :: 0 <= k < |ContingencyPlanning.title| ==> TitleChar(ContingencyPlanning.title[k])
    ensures UpperCode(ContingencyPlanning.code)
  {
  }

  lemma IdentificationAndAuthenticationTitled()
    ensures forall k :: 0 <= k < |IdentificationAndAuthentication.title| ==> TitleChar(IdentificationAndAuthentication.title[k])
    ensures UpperCode(IdentificationAndAuthentication.code)
  {
  }

  lemma IncidentResponseTitled()
    ensures forall k :: 0 <= k < |IncidentResponse.title| ==> TitleChar(IncidentResponse.title[k])
    ensures UpperCode(IncidentResponse.code)
  {
  }

  lemma MaintenanceTitled()
    ensures forall k :: 0 <= k < |Maintenance.title| ==> TitleChar(Maintenance.title[k])
    ensures UpperCode(Maintenance.code)
  {
  }

  lemma MediaProtectionTitled()
    ensures forall k :: 0 <= k < |MediaProtection.title| ==> TitleChar(MediaProtection.title[k])
    ensures UpperCode(MediaProtection.code)
  {
  }

  lemma PhysicalProtectionTitled()
    ensures forall k :: 0 <= k < |PhysicalProtection.title| ==> TitleChar(PhysicalProtection.title[k])
    ensures UpperCode(PhysicalProtection.code)
  {
  }

  lemma PlanningTitled()
    ensures forall k :: 0 <= k < |Planning.title| ==> TitleChar(Planning.title[k])
    ensures UpperCode(Planning.code)
  {
  }

  lemma PersonnelSecurityTitled()
    ensures forall k :: 0 <= k < |PersonnelSecurity.title| ==> TitleChar(PersonnelSecurity.title[k])
    ensures UpperCode(PersonnelSecurity.code)
  {
  }

  lemma RiskAssessmentTitled()
    ensures forall k :: 0 <= k < |RiskAssessment.title| ==> TitleChar(RiskAssessment.title[k])
    ensures UpperCode(RiskAssessment.code)
  {
  }

  lemma SystemAcquisitionTitled()
    ensures forall k :: 0 <= k < |SystemAcquisition.title| ==> TitleChar(SystemAcquisition.title[k])
    ensures UpperCode(SystemAcquisition.code)
  {
  }

  lemma SystemProtectionTitled()
    ensures forall k :: 0 <= k < |SystemProtection.title| ==> TitleChar(SystemProtection.title[k])
    ensures UpperCode(SystemProtection.code)
  {
  }

  lemma SystemIntegrityTitled()
    ensures forall k :: 0 <= k < |SystemIntegrity.title| ==> TitleChar(SystemIntegrity.title[k])
    ensures UpperCode(SystemIntegrity.code)
  {
  }

  lemma ProgramManagementTitled()
    ensures forall k :: 0 <= k < |ProgramManagement.title| ==> TitleChar(ProgramManagement.title[k])
    ensures UpperCode(ProgramManagement.code)
  {
  }

  lemma AllFamiliesWellFormed()
    ensures forall i :: 0 <= i < |ControlFamilies| ==> WellFormed(ControlFamilies[i])
  {
    AccessControlTitled();
    AuditAndAccountabilityTitled();
    SecurityAssessmentTitled();
    ConfigurationManagementTitled();
    ContingencyPlanningTitled();
    IdentificationAndAuthenticationTitled();
    IncidentResponseTitled();
    MaintenanceTitled();
    MediaProtectionTitled();
    PhysicalProtectionTitled();
    PlanningTitled();
    PersonnelSecurityTitled();
    RiskAssessmentTitled();
    SystemAcquisitionTitled();
    SystemProtectionTitled();
    SystemIntegrityTitled();
    ProgramManagementTitled();
    AccessControlShaped();
    AuditAndAccountabilityShaped();
    SecurityAssessmentShaped();
    ConfigurationManagementShaped();
    ContingencyPlanningShaped();
    IdentificationAndAuthenticationShaped();
    IncidentResponseShaped();
    MaintenanceShaped();
    MediaProtectionShaped();
    PhysicalProtectionShaped();
    PlanningShaped();
    PersonnelSecurityShaped();
    RiskAssessmentShaped();
    SystemAcquisitionShaped();
    SystemProtectionShaped();
    SystemIntegrityShaped();
    ProgramManagementShaped();
  }

  /** A character that the rendered control enumeration cannot hold: it is
      not a title character, a capital, a digit, a parenthesis, or any of
      the layout characters. */
  predicate Foreign(c: char) {
    && !TitleChar(c) && !IdChar(c) && !('A' <= c <= 'Z')
    && c != ' ' && c != '\n' && c != '-' && c != '#' && c != ':'
  }

  lemma {:induction false} ForeignNotInControls(c: char, code: string, controls: seq<string>)
    requires Foreign(c) && forall i :: 0 <= i < |controls| ==> IdShape(controls[i], code)
    ensures c !in RenderControls(controls)
  {
    if |controls| > 0 {
      ForeignNotInControls(c, code, controls[1..]);
      var v := controls[0];
      assert IdShape(v, code);
      assert c !in v by {
        forall k | 0 <= k < |v| ensures v[k] != c {
          if k >= 3 { assert IdChar(v[k]); }
        }
      }
    }
  }

  lemma {:induction false} ForeignNotInFamilies(c: char, fs: seq<Family>)
    requires Foreign(c) && forall i :: 0 <= i < |fs| ==> WellFormed(fs[i])
    ensures c !in RenderFamilies(fs)
  {
    if |fs| > 0 {
      assert WellFormed(fs[0]);
      ForeignNotInControls(c, fs[0].code, fs[0].controls);
      ForeignNotInFamilies(c, fs[1..]);
      assert c !in fs[0].title by {
        forall k | 0 <= k < |fs[0].title| ensures fs[0].title[k] != c {
          assert TitleChar(fs[0].title[k]);
        }
      }
      assert c !in fs[0].code;
    }
  }

  lemma ListedFamiliesWellFormed()
    ensures forall i :: 0 <= i < |ListedFamilies| ==> WellFormed(ListedFamilies[i])
  {
    AllFamiliesWellFormed();
  }

  /** A foreign character is not in an `enum:` key over well-formed families. */
  lemma ForeignNotInEnum(c: char, fs: seq<Family>)
    requires Foreign(c) && forall i :: 0 <= i < |fs| ==> WellFormed(fs[i])
    ensures c !in "enum:" + RenderFamilies(fs)
  {
    ForeignNotInFamilies(c, fs);
    ForeignNotInKey(c);
    NoCharInConcat("enum:", RenderFamilies(fs), c);
  }

  lemma ForeignNotInKey(c: char)
    requires Foreign(c)
    ensures c !in "enum:"
  {
    var key := "enum:";
    forall k | 0 <= k < |key| ensures key[k] != c {
    }
  }

  lemma ForeignNotInControlEnum(c: char)
    requires Foreign(c)
    ensures c !in ControlEnum()
  {
    ListedFamiliesWellFormed();
    ForeignNotInEnum(c, ListedFamilies);
  }

  lemma NoLetterXInControlEnum()
    ensures 'x' !in ControlEnum()
  {
    assert Foreign('x');
    ForeignNotInControlEnum('x');
  }

  lemma NoBackslashInControlEnum()
    ensures '\\' !in ControlEnum()
  {
    assert Foreign('\\');
    ForeignNotInControlEnum('\\');
  }

  /** The control enumeration holds no `x-faker` key. */
  lemma ControlEnumFakerFree()
    ensures !Contains(ControlEnum(), "x-faker")
  {
    NoLetterXInControlEnum();
    MissingCharNotContained(ControlEnum(), "x-faker", 'x');
  }

  lemma ControlCountFromTwelve()
    ensures ControlCount(ControlFamilies[12..]) == 60
  {
    assert ControlFamilies[17..] == [];
    assert ControlFamilies[16..][1..] == ControlFamilies[17..];
    assert ControlCount(ControlFamilies[16..]) == 10;
    assert ControlFamilies[15..][1..] == ControlFamilies[16..];
    assert ControlCount(ControlFamilies[15..]) == 27;
    assert ControlFamilies[14..][1..] == ControlFamilies[15..];
    assert ControlCount(ControlFamilies[14..]) == 47;
    assert ControlFamilies[13..][1..] == ControlFamilies[14..];
    assert ControlCount(ControlFamilies[13..]) == 56;
    assert ControlFamilies[12..][1..] == ControlFamilies[13..];
    assert ControlCount(ControlFamilies[12..]) == 60;
  }

  lemma ControlCountFromSix()
    ensures ControlCount(ControlFamilies[6..]) == 107
  {
    ControlCountFromTwelve();
    assert ControlFamilies[11..][1..] == ControlFamilies[12..];
    assert ControlCount(ControlFamilies[11..]) == 68;
    assert ControlFamilies[10..][1..] == ControlFamilies[11..];
    assert ControlCount(ControlFamilies[10..]) == 72;
    assert ControlFamilies[9..][1..] == ControlFamilies[10..];
    assert ControlCount(ControlFamilies[9..]) == 86;
    assert ControlFamilies[8..][1..] == ControlFamilies[9..];
    assert ControlCount(ControlFamilies[8..]) == 93;
    assert ControlFamilies[7..][1..] == ControlFamilies[8..];
    assert ControlCount(ControlFamilies[7..]) == 99;
    assert ControlFamilies[6..][1..] == ControlFamilies[7..];
    assert ControlCount(ControlFamilies[6..]) == 107;
  }

  lemma ControlCountFromThree()
    ensures ControlCount(ControlFamilies[3..]) == 142
  {
    ControlCountFromSix();
    assert ControlFamilies[5..][1..] == ControlFamilies[6..];
    assert ControlCount(ControlFamilies[5..]) == 122;
    assert ControlFamilies[4..][1..] == ControlFamilies[5..];
    assert ControlCount(ControlFamilies[4..]) == 131;
    assert ControlFamilies[3..][1..] == ControlFamilies[4..];
  }

  /** The control enumeration lists 190 identifiers in 17 families. */
  lemma ControlTableSize()
    ensures |ControlFamilies| == 17
    ensures ControlCount(ControlFamilies) == 190
  {
    ControlCountFromThree();
    assert ControlFamilies[2..][1..] == ControlFamilies[3..];
    assert ControlCount(ControlFamilies[2..]) == 150;
    assert ControlFamilies[1..][1..] == ControlFamilies[2..];
    assert ControlCount(ControlFamilies[1..]) == 163;
    assert ControlFamilies[0..][1..] == ControlFamilies[1..];
    assert ControlCount(ControlFamilies[0..]) == 190;
    assert ControlFamilies[0..] == ControlFamilies;
  }

  /** None of the literals the remover deletes is a control identifier of
      the table. */
  lemma InvalidLiteralsAbsent()
    ensures forall i, lit :: 0 <= i < |ControlFamilies| && lit in InvalidLiterals ==>
      lit !in ControlFamilies[i].controls
  {
    AllFamiliesWellFormed();
    assert "SI-56" !in SystemIntegrityIds;
  }

  // ---------------------------------------------------------------------
  // The CCI table

  const CciRow1: seq<nat> := [1, 2, 3, 4, 5, 9, 12, 13, 15, 16, 17, 18]
  const CciRow2: seq<nat> := [19, 22, 24, 26, 44, 45, 46, 52, 53, 56, 58, 61]
  const CciRow3: seq<nat> := [63, 67, 68, 70, 73, 76, 125, 145, 155, 158, 159, 160]
  const CciRow4: seq<nat> := [162, 163, 164, 167, 169, 171, 172, 174, 254, 451, 852, 1234]
  const CciRow5: seq<nat> := [1453, 1494, 1495, 1499, 1503, 1504, 1581, 1643, 1744, 1858, 1941, 2041]
  const CciRow6: seq<nat> := [2115, 2235, 2301, 2450, 2617, 2752, 2899, 3123, 3305, 3447, 3449, 3450]

  /** The CCI numbers the enumeration lists, in its order. */
  const CciCodes: seq<nat> := CciRow1 + CciRow2 + CciRow3 + CciRow4 + CciRow5 + CciRow6

  /** The whole CCI table, taken as a slice for the reason `ListedFamilies` is. */
  const ListedCci: seq<nat> := CciCodes[0..|CciCodes|]

  function Digit(d: nat): char
    requires d < 10
  {
    (d + '0' as int) as char
  }

  function Pow10(w: nat): (r: nat)
    ensures r > 0
  {
    if w == 0 then 1 else 10 * Pow10(w - 1)
  }

  function DigitValue(c: char): (d: nat)
    requires IsDigit(c)
    ensures d < 10
  {
    c as int - '0' as int
  }

  /** The number a string of decimal digits denotes. */
  function DigitsValue(s: string): nat
    requires forall k :: 0 <= k < |s| ==> IsDigit(s[k])
  {
    if |s| == 0 then 0 else DigitsValue(s[..|s| - 1]) * 10 + DigitValue(s[|s| - 1])
  }

  lemma MulAtLeast(d: nat, x: int)
    requires x >= 1
    ensures d * x >= d
  {
  }

  /** Division with remainder is unique. */
  lemma ModUnique(n: nat, d: nat, a: nat, c: nat)
    requires 0 <= c < d && n == d * a + c
    ensures n % d == c
  {
    var q, r := n / d, n % d;
    assert n == d * q + r;
    if q > a {
      MulAtLeast(d, q - a);
    } else if q < a {
      MulAtLeast(d, a - q);
    }
  }

  /** Dropping the last decimal digit and taking the rest modulo `p`, then
      putting the digit back, is taking the number modulo `10 * p`. */
  lemma ModStep(n: nat, p: nat)
    requires p > 0
    ensures (n / 10) % p * 10 + n % 10 == n % (10 * p)
  {
    var q := n / 10;
    var a, b := q / p, q % p;
    assert q == p * a + b;
    assert n == 10 * q + n % 10;
    assert n == (10 * p) * a + (b * 10 + n % 10) by {
      assert 10 * (p * a) == (10 * p) * a;
    }
    ModUnique(n, 10 * p, a, b * 10 + n % 10);
  }

  /** The last `w` decimal digits of `n`, zero-padded, as `'%06d'`-style text. */
  function PadDigits(n: nat, w: nat): (r: string)
    ensures |r| == w && forall k :: 0 <= k < |r| ==> IsDigit(r[k])
    ensures DigitsValue(r) == n % Pow10(w)
  {
    if w == 0 then ""
    else
      var r := PadDigits(n / 10, w - 1) + [Digit(n % 10)];
      assert r[..|r| - 1] == PadDigits(n / 10, w - 1);
      ModStep(n, Pow10(w - 1));
      r
  }

  /** A CCI number as the six-digit text the enumeration quotes. */
  function SixDigits(n: nat): (r: string)
    ensures |r| == 6 && forall k :: 0 <= k < 6 ==> IsDigit(r[k])
  {
    PadDigits(n, 6)
  }

  /** Six digits denote the number they render, for every CCI number. */
  lemma SixDigitsValue(n: nat)
    requires n < 1000000
    ensures DigitsValue(SixDigits(n)) == n
  {
    assert Pow10(6) == 1000000;
    ModUnique(n, 1000000, 0, n);
  }

  function RenderCci(codes: seq<nat>): string {
    if |codes| == 0 then ""
    else "\n" + ItemIndent + "- '" + SixDigits(codes[0]) + "'" + RenderCci(codes[1..])
  }

  /** The value of `get_cci_enum()` (and of `cci_enum`): a `pattern:` line
      whose text holds two backslashes, then an `enum:` key with one quoted
      item per CCI number and no newline after the last item. */
  function CciEnum(): string {
    CciHead + "\\\\" + CciTail()
  }

  /** What `re.sub` inserts for the CCI enumeration: the same text with the
      escaped backslash read as one. */
  function CciInserted(): string {
    CciHead + "\\" + CciTail()
  }

  /** The CCI enumeration up to the backslash of its pattern. */
  const CciHead := "pattern: '^"

  /** The CCI enumeration after the backslash of its pattern. */
  function CciTail(): string {
    "d{6}$'\n" + TenSpaces + "enum:" + RenderCci(ListedCci)
  }

  /** Each number is larger than the one before it. */
  predicate Chain(xs: seq<nat>) {
    forall k :: 0 <= k < |xs| - 1 ==> xs[k] < xs[k + 1]
  }

  predicate StrictlyAscending(xs: seq<nat>) {
    forall i, j :: 0 <= i < j < |xs| ==> xs[i] < xs[j]
  }

  lemma ChainJoin(a: seq<nat>, b: seq<nat>)
    requires Chain(a) && Chain(b) && |a| > 0 && |b| > 0 && a[|a| - 1] < b[0]
    ensures Chain(a + b)
  {
    forall k | 0 <= k < |a + b| - 1 ensures (a + b)[k] < (a + b)[k + 1] {
      if k < |a| - 1 {
      } else if k == |a| - 1 {
      } else {
        assert (a + b)[k] == b[k - |a|];
      }
    }
  }

  lemma {:induction false} ChainAscending(xs: seq<nat>)
    requires Chain(xs)
    ensures StrictlyAscending(xs)
  {
    if |xs| > 1 {
      ChainAscending(xs[1..]);
      forall i, j | 0 <= i < j < |xs| ensures xs[i] < xs[j] {
        if i == 0 && j > 1 {
          assert xs[1..][0] < xs[1..][j - 1];
        } else if i > 0 {
          assert xs[1..][i - 1] < xs[1..][j - 1];
        }
      }
    }
  }

  lemma CciRowsChain()
    ensures Chain(CciRow1) && Chain(CciRow2) && Chain(CciRow3)
    ensures Chain(CciRow4) && Chain(CciRow5) && Chain(CciRow6)
  {
  }

  /** The CCI table lists 72 numbers, strictly ascending, each below a
      million, so each renders as exactly six digits. */
  lemma CciTable()
    ensures |CciCodes| == 72
    ensures StrictlyAscending(CciCodes)
    ensures forall k :: 0 <= k < |CciCodes| ==> CciCodes[k] < 1000000
  {
    CciRowsChain();
    var r12 := CciRow1 + CciRow2;
    ChainJoin(CciRow1, CciRow2);
    var r123 := r12 + CciRow3;
    ChainJoin(r12, CciRow3);
    var r1234 := r123 + CciRow4;
    ChainJoin(r123, CciRow4);
    var r12345 := r1234 + CciRow5;
    ChainJoin(r1234, CciRow5);
    ChainJoin(r12345, CciRow6);
    assert CciCodes == r12345 + CciRow6;
    ChainAscending(CciCodes);
    assert CciCodes[71] == 3450;
  }

  lemma {:induction false} RenderCciPlain(codes: seq<nat>)
    ensures 'x' !in RenderCci(codes) && '\\' !in RenderCci(codes)
  {
    if |codes| > 0 {
      RenderCciPlain(codes[1..]);
      var d := SixDigits(codes[0]);
      assert 'x' !in d && '\\' !in d by {
        forall k | 0 <= k < 6 ensures d[k] != 'x' && d[k] != '\\' {
          assert IsDigit(d[k]);
        }
      }
    }
  }

  /** Neither the CCI enumeration nor what `re.sub` inserts for it holds an
      `x-faker` key, and the only backslashes are those of its pattern. */
  lemma CciEnumFakerFree()
    ensures !Contains(CciEnum(), "x-faker") && !Contains(CciInserted(), "x-faker")
    ensures '\\' !in CciHead && '\\' !in CciTail()
  {
    CciPiecesPlain('x');
    CciPiecesPlain('\\');
    CciTailPlain('x');
    CciTailPlain('\\');
    NoCharInConcat(CciHead, "\\\\", 'x');
    NoCharInConcat(CciHead + "\\\\", CciTail(), 'x');
    NoCharInConcat(CciHead, "\\", 'x');
    NoCharInConcat(CciHead + "\\", CciTail(), 'x');
    assert "x-faker"[0] == 'x';
    MissingCharNotContained(CciEnum(), "x-faker", 'x');
    MissingCharNotContained(CciInserted(), "x-faker", 'x');
  }

  /** The literal pieces of the CCI enumeration hold neither an `x` nor a
      backslash. */
  lemma CciPiecesPlain(c: char)
    requires c == 'x' || c == '\\'
    ensures c !in CciHead && c !in "d{6}$'\n" && c !in TenSpaces && c !in "enum:"
  {
    var head, pat, key := CciHead, "d{6}$'\n", "enum:";
    forall k | 0 <= k < |head| ensures head[k] != c { }
    forall k | 0 <= k < |pat| ensures pat[k] != c { }
    forall k | 0 <= k < |TenSpaces| ensures TenSpaces[k] != c { }
    forall k | 0 <= k < |key| ensures key[k] != c { }
  }

  lemma CciTailPlain(c: char)
    requires c == 'x' || c == '\\'
    ensures c !in CciTail()
  {
    CciPiecesPlain(c);
    RenderCciPlain(ListedCci);
    NoCharInConcat("d{6}$'\n", TenSpaces, c);
    NoCharInConcat("d{6}$'\n" + TenSpaces, "enum:", c);
    NoCharInConcat("d{6}$'\n" + TenSpaces + "enum:", RenderCci(ListedCci), c);
  }
}
