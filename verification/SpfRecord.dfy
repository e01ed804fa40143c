/** SPF record text: prober/spf.go. */
module SpfRecord {
  import opened Text

  datatype Kind = Other | All | Include | Redirect | A | MX | PTR | Exists

  datatype Mechanism = Mechanism(kind: Kind, target: string, hasMacro: bool)

  const VERSION: string := "v=spf1"

  predicate IsQualifier(c: char) {
    c == '+' || c == '-' || c == '~' || c == '?'
  }

  /** A term without its one optional qualifier character. */
  function Body(f: Term): string
  {
    if IsQualifier(f[0]) then f[1..] else f
  }

  function Plain(kind: Kind): Mechanism {
    Mechanism(kind, "", false)
  }

  function Targeted(kind: Kind, target: string): Mechanism {
    Mechanism(kind, target, Contains(target, "%{"))
  }

  /** The mechanism one whitespace-separated term denotes. */
  function Classify(f: Term): Mechanism
  {
    var body := Body(f);
    var lower := ToLower(body);
    if lower == "all" then Plain(All)
    else if HasPrefix(lower, "include:") then Targeted(Include, body[|"include:"|..])
    else if HasPrefix(lower, "redirect=") then Targeted(Redirect, body[|"redirect="|..])
    else if lower == "a" || HasPrefix(lower, "a:") || HasPrefix(lower, "a/") then Plain(A)
    else if lower == "mx" || HasPrefix(lower, "mx:") || HasPrefix(lower, "mx/") then Plain(MX)
    else if lower == "ptr" || HasPrefix(lower, "ptr:") then Plain(PTR)
    else if HasPrefix(lower, "exists:") then Plain(Exists)
    else Plain(Other)
  }

  /** The mechanisms of a list of terms; version tokens are dropped wherever they stand. */
  function MechanismsOf(fields: seq<Term>): seq<Mechanism>
  {
    if fields == [] then []
    else
      var init := MechanismsOf(fields[..|fields| - 1]);
      var f := fields[|fields| - 1];
      if EqualFold(f, VERSION) then init else init + [Classify(f)]
  }

  lemma MechanismsSnoc(fields: seq<Term>, f: Term)
    ensures MechanismsOf(fields + [f]) ==
              if EqualFold(f, VERSION) then MechanismsOf(fields) else MechanismsOf(fields) + [Classify(f)]
  {
    assert (fields + [f])[..|fields|] == fields;
  }

  function Mechanisms(record: string): seq<Mechanism> {
    MechanismsOf(Fields(record))
  }

  predicate HasAll(record: string) {
    AnyAll(Mechanisms(record))
  }

  predicate AnyAll(mechs: seq<Mechanism>) {
    exists m <- mechs :: m.kind == All
  }

  lemma AnyAllSnoc(mechs: seq<Mechanism>, m: Mechanism)
    ensures AnyAll(mechs + [m]) <==> AnyAll(mechs) || m.kind == All
  {
    assert m in mechs + [m];
  }

  method ParseSPFMechanisms(record: string) returns (mechs: seq<Mechanism>, hasAll: bool)
    ensures mechs == Mechanisms(record)
    ensures hasAll <==> HasAll(record)
  {
    mechs, hasAll := [], false;
    var fields := Fields(record);
    for i := 0 to |fields|
      invariant mechs == MechanismsOf(fields[..i])
      invariant hasAll <==> AnyAll(mechs)
    {
      var f := fields[i];
      assert fields[..i + 1][..i] == fields[..i];
      if EqualFold(f, VERSION) {
        continue;
      }
      var m := Classify(f);
      if m.kind == All {
        hasAll := true;
      }
      AnyAllSnoc(mechs, m);
      mechs := mechs + [m];
    }
    assert fields[..|fields|] == fields;
  }

  // ----- the terminal qualifier -----

  /** The qualifier named by one term, if the term is an `all`. */
  function AllQualifier(f: Term): string {
    var lower := ToLower(f);
    if lower == "all" || lower == "+all" then "pass"
    else if lower == "-all" then "fail"
    else if lower == "~all" then "softfail"
    else if lower == "?all" then "neutral"
    else "none"
  }

  /** The last `all` among the terms decides. */
  function TerminalQualifierOf(fields: seq<Term>): (q: string)
    ensures q == "none" <==> forall f <- fields :: AllQualifier(f) == "none"
  {
    if fields == [] then "none"
    else
      var last := AllQualifier(fields[|fields| - 1]);
      assert fields == fields[..|fields| - 1] + [fields[|fields| - 1]];
      if last != "none" then last else TerminalQualifierOf(fields[..|fields| - 1])
  }

  method TerminalAllQualifier(record: string) returns (qualifier: string)
    ensures qualifier == TerminalQualifierOf(Fields(record))
    ensures qualifier == "none" <==> !HasAll(record)
  {
    qualifier := "none";
    var fields := Fields(record);
    for i := 0 to |fields|
      invariant qualifier == TerminalQualifierOf(fields[..i])
    {
      assert fields[..i + 1][..i] == fields[..i];
      var lower := ToLower(fields[i]);
      if lower == "all" || lower == "+all" {
        qualifier := "pass";
      } else if lower == "-all" {
        qualifier := "fail";
      } else if lower == "~all" {
        qualifier := "softfail";
      } else if lower == "?all" {
        qualifier := "neutral";
      }
    }
    assert fields[..|fields|] == fields;
    ReadersAgreeOnAll(record);
  }

  /** `all` means the same to the tokenizer and to the terminal-qualifier reader. */
  lemma AllTermAgreement(f: Term)
    ensures Classify(f).kind == All <==> AllQualifier(f) != "none"
    ensures EqualFold(f, VERSION) ==> AllQualifier(f) == "none"
  {
    LoweredTerm(f);
    AllTexts(ToLower(f), ToLower(Body(f)));
    assert ToLower(VERSION) == "v=spf1";
  }

  lemma LoweredTerm(f: Term)
    ensures ToLower(f) != []
    ensures if IsQualifier(f[0]) then ToLower(f) == [f[0]] + ToLower(Body(f))
            else ToLower(f) == ToLower(Body(f)) && !IsQualifier(ToLower(f)[0])
  {
  }

  /** The lowered texts of the `all` terms. */
  lemma AllTexts(lower: string, body: string)
    requires lower != []
    requires if IsQualifier(lower[0]) then lower == [lower[0]] + body else lower == body
    ensures body == "all" <==> lower in {"all", "+all", "-all", "~all", "?all"}
  {
    if IsQualifier(lower[0]) {
      assert lower[1..] == body;
      assert body == "all" <==> lower == [lower[0], 'a', 'l', 'l'];
    }
  }

  lemma {:induction false} AllTermsAgreement(fields: seq<Term>)
    ensures AnyAll(MechanismsOf(fields)) <==> exists f <- fields :: AllQualifier(f) != "none"
  {
    if fields != [] {
      var n := |fields| - 1;
      assert fields == fields[..n] + [fields[n]];
      AllTermsAgreement(fields[..n]);
      AllTermAgreement(fields[n]);
      AnyAllSnoc(MechanismsOf(fields[..n]), Classify(fields[n]));
    }
  }

  lemma ReadersAgreeOnAll(record: string)
    ensures HasAll(record) <==> TerminalQualifierOf(Fields(record)) != "none"
  {
    AllTermsAgreement(Fields(record));
  }

  // ----- selection and malformation -----

  predicate IsSPFRecord(record: string) {
    var r := TrimSpace(record);
    && |VERSION| <= |r|
    && EqualFold(r[..|VERSION|], VERSION)
    && (|r| == |VERSION| || r[|VERSION|] == ' ' || r[|VERSION|] == '\t')
  }

  /** One term the malformation check objects to. */
  predicate Broken(f: Term)
  {
    || (IsQualifier(f[0]) && Body(f) == "")
    || ToLower(Body(f)) == "include:"
    || ToLower(Body(f)) == "redirect="
  }

  ghost predicate Malformed(record: string) {
    || Fields(record) == []
    || exists i :: 1 <= i < |Fields(record)| && Broken(Fields(record)[i])
  }

  method SPFMalformed(record: string) returns (malformed: bool)
    ensures malformed <==> Malformed(record)
  {
    var fields := Fields(record);
    if |fields| == 0 {
      return true;
    }
    for i := 1 to |fields|
      invariant forall j :: 1 <= j < i ==> !Broken(fields[j])
    {
      var f := fields[i];
      var body: string := f;
      if IsQualifier(body[0]) {
        body := body[1..];
        if body == "" {
          return true;
        }
      }
      var lower := ToLower(body);
      if lower == "include:" || lower == "redirect=" {
        return true;
      }
    }
    return false;
  }

  /** The first term of a selected record is exactly its version token. */
  lemma FirstFieldIsVersion(record: string)
    requires IsSPFRecord(record)
    ensures Fields(record) != [] && EqualFold(Fields(record)[0], VERSION)
  {
    var r := TrimSpace(record);
    FieldsOfTrimSpace(record);
    forall i | 0 <= i < |VERSION| ensures !IsSpace(r[i]) {
      assert LowerChar(r[i]) == ToLower(r[..|VERSION|])[i] == ToLower(VERSION)[i] == LowerChar(VERSION[i]);
      assert VERSION[i] in VERSION && !IsSpace(VERSION[i]);
    }
    WordLengthIs(r, |VERSION|);
    assert Fields(r)[0] == r[..|VERSION|];
  }

  ghost predicate HasTarget(m: Mechanism) {
    m.kind == Include || m.kind == Redirect ==> m.target != ""
  }

  lemma UnbrokenTermHasTarget(f: Term)
    requires !Broken(f)
    ensures HasTarget(Classify(f))
  {
    var body := Body(f);
    var lower := ToLower(body);
    assert |lower| == |"include:"| ==> lower == lower[..|"include:"|];
    assert |lower| == |"redirect="| ==> lower == lower[..|"redirect="|];
  }

  lemma {:induction false} UnbrokenTermsHaveTargets(fields: seq<Term>)
    requires forall f <- fields :: EqualFold(f, VERSION) || !Broken(f)
    ensures forall m <- MechanismsOf(fields) :: HasTarget(m)
  {
    if fields != [] {
      var f := fields[|fields| - 1];
      assert fields == fields[..|fields| - 1] + [f];
      UnbrokenTermsHaveTargets(fields[..|fields| - 1]);
      if !EqualFold(f, VERSION) {
        UnbrokenTermHasTarget(f);
      }
    }
  }

  /** A selected, well-formed record gives the lookup counter a target in every include and redirect. */
  lemma WellFormedRecordHasTargets(record: string)
    requires IsSPFRecord(record) && !Malformed(record)
    ensures forall m <- Mechanisms(record) :: HasTarget(m)
  {
    var fields := Fields(record);
    FirstFieldIsVersion(record);
    forall f | f in fields ensures EqualFold(f, VERSION) || !Broken(f) {
      var i :| 0 <= i < |fields| && fields[i] == f;
    }
    UnbrokenTermsHaveTargets(fields);
  }

  // ----- apex analysis -----

  datatype Analysis = Analysis(
    present: bool, recordCount: nat, valid: bool, qualifier: string, raw: string, records: seq<string>)

  /** The apex TXT strings that are SPF records, trimmed, in published order. */
  function Selected(records: seq<string>): seq<string> {
    if records == [] then []
    else
      var init := Selected(records[..|records| - 1]);
      var r := records[|records| - 1];
      if IsSPFRecord(r) then init + [TrimSpace(r)] else init
  }

  method AnalyzeSPF(records: seq<string>) returns (res: Analysis)
    ensures res.records == Selected(records) && res.recordCount == |res.records|
    ensures res.present <==> exists r <- records :: IsSPFRecord(r)
    ensures res.valid <==> |Selected(records)| == 1 && !Malformed(Selected(records)[0])
    ensures |Selected(records)| == 1 ==>
              && res.raw == Selected(records)[0]
              && res.qualifier == TerminalQualifierOf(Fields(res.raw))
    ensures |Selected(records)| != 1 ==> res.raw == "" && res.qualifier == ""
    ensures res.valid ==> forall m <- Mechanisms(res.raw) :: HasTarget(m)
  {
    var spf: seq<string> := [];
    for i := 0 to |records|
      invariant spf == Selected(records[..i])
    {
      assert records[..i + 1][..i] == records[..i];
      if IsSPFRecord(records[i]) {
        spf := spf + [TrimSpace(records[i])];
      }
    }
    assert records[..|records|] == records;
    SelectedAreTrimmed(records);
    if |spf| != 1 {
      return Analysis(|spf| > 0, |spf|, false, "", "", spf);
    }
    var rec := spf[0];
    var malformed := SPFMalformed(rec);
    var qualifier := TerminalAllQualifier(rec);
    if !malformed {
      TrimmedRecordHasTargets(records, rec);
    }
    return Analysis(true, 1, !malformed, qualifier, rec, spf);
  }

  /** There is a selected record iff there is an SPF record, and each is one of those, trimmed. */
  lemma {:induction false} SelectedAreTrimmed(records: seq<string>)
    ensures Selected(records) != [] <==> exists r <- records :: IsSPFRecord(r)
    ensures forall s <- Selected(records) :: exists r <- records :: IsSPFRecord(r) && s == TrimSpace(r)
  {
    if records != [] {
      var init, last := records[..|records| - 1], records[|records| - 1];
      assert records == init + [last];
      SelectedAreTrimmed(init);
    }
  }

  lemma TrimmedRecordHasTargets(records: seq<string>, rec: string)
    requires rec in Selected(records) && !Malformed(rec)
    ensures forall m <- Mechanisms(rec) :: HasTarget(m)
  {
    SelectedAreTrimmed(records);
    var r :| r in records && IsSPFRecord(r) && rec == TrimSpace(r);
    FieldsOfTrimSpace(r);
    WellFormedRecordHasTargets(r);
  }
}
