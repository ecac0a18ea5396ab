/**
 * The bill taxonomies of the domain layer: the eight kinds of legislative
 * vehicle and the bill-text version abbreviations, each with its display
 * table.
 */
module DomainBills {
  import opened Results

  /** A legislative vehicle category. */
  datatype BillType = HR | S | HJRES | SJRES | HCONRES | SCONRES | HRES | SRES

  predicate IsUpperLetter(c: char) { 'A' <= c <= 'Z' }

  /** The display form of a bill type: its own variant name. */
  function BillTypeName(t: BillType): (name: string)
    ensures |name| > 0
    ensures forall c <- name :: IsUpperLetter(c)
  {
    match t
    case HR => "HR"
    case S => "S"
    case HJRES => "HJRES"
    case SJRES => "SJRES"
    case HCONRES => "HCONRES"
    case SCONRES => "SCONRES"
    case HRES => "HRES"
    case SRES => "SRES"
  }

  /** No two bill types share a display form. */
  lemma BillTypeNameInjective(t: BillType, u: BillType)
    ensures BillTypeName(t) == BillTypeName(u) ==> t == u
  {
  }

  /** A stage in a bill text's legislative life. */
  datatype BillTextVersionAbbreviation =
    | AS | ASH | ATH | ATS | CDH | CDS | CPH | CPS | EAH | EAS | EH | ENR | ES
    | FPH | FPS | HDS | IH | IPH | IPS | IS | LTH | LTS | PAP | PCS | PP | PVTL
    | PL | RCH | RCS | RDS | RFH | RFS | RH | RHUC | RIH | RS | RTH | RTS | SC
    | STATPVT | STAT

  /** The human-readable phrase a version abbreviation displays as. */
  function AbbreviationPhrase(a: BillTextVersionAbbreviation): (phrase: string)
    ensures |phrase| > 0
  {
    match a
    case AS => "Amendment Ordered to be Printed (Senate)"
    case ASH => "Additional Sponsors House"
    case ATH => "Agreed to House"
    case ATS => "Agreed to Senate"
    case CDH => "Committee Discharged House"
    case CDS => "Committee Discharged Senate"
    case CPH => "Considered and Passed House"
    case CPS => "Considered and Passed Senate"
    case EAH => "Engrossed Amendment House"
    case EAS => "Engrossed Amendment Senate"
    case EH => "Engrossed in House"
    case ENR => "Enrolled Bill"
    case ES => "Engrossed in Senate"
    case FPH => "Failed Passage House"
    case FPS => "Failed Passage Senate"
    case HDS => "Held at Desk Senate"
    case IH => "Introduced in House"
    case IPH => "Indefinitely Postponed House"
    case IPS => "Indefinitely Postponed Senate"
    case IS => "Introduced in Senate"
    case LTH => "Laid on Table in House"
    case LTS => "Laid on Table in Senate"
    case PAP => "Printed as Passed"
    case PCS => "Placed on Calendar Senate"
    case PP => "Public Print"
    case PVTL => "Private Law"
    case PL => "Public Law"
    case RCH => "Reference Change House"
    case RCS => "Reference Change Senate"
    case RDS => "Received in Senate"
    case RFH => "Referred in House"
    case RFS => "Referred in Senate"
    case RH => "Reported in House"
    case RHUC => "Returned to the House by Unanimous Consent"
    case RIH => "Referral Instructions House"
    case RS => "Reported to Senate"
    case RTH => "Referred to Committee House"
    case RTS => "Referred to Committee Senate"
    case SC => "Sponsor Change"
    case STATPVT => "Statutes at Large (Private Law)"
    case STAT => "Statute"
  }

  /**
   * Reads an abbreviation back from the length of a phrase and its third
   * character (its seventh as well where two phrases of one length share the
   * third). It agrees with `AbbreviationPhrase` on every phrase that table
   * displays, which is what makes the table one-to-one.
   */
  function AbbreviationByKey(p: string): Option<BillTextVersionAbbreviation>
  {
    if |p| < 7 then None
    else
      match |p|
      case 7 => Some(STAT)
      case 10 => Some(PL)
      case 11 => Some(PVTL)
      case 12 => Some(PP)
      case 13 => Some(ENR)
      case 14 => Some(SC)
      case 15 => Some(ATH)
      case 16 => Some(ATS)
      case 17 =>
        if p[2] == 'i' then Some(PAP)
        else if p[2] == 'f' then Some(RFH)
        else if p[2] == 'p' then Some(RH)
        else None
      case 18 =>
        if p[2] == 'g' then Some(EH)
        else if p[2] == 'c' then Some(RDS)
        else if p[2] == 'f' then Some(RFS)
        else if p[2] == 'p' then Some(RS)
        else None
      case 19 =>
        if p[2] == 'g' then Some(ES)
        else if p[2] == 'l' then Some(HDS)
        else if p[2] == 't' then Some(IH)
        else None
      case 20 =>
        if p[2] == 'i' then Some(FPH)
        else if p[2] == 't' then Some(IS)
        else None
      case 21 => Some(FPS)
      case 22 =>
        if p[2] == 'i' then Some(LTH)
        else if p[2] == 'f' then Some(RCH)
        else None
      case 23 =>
        if p[2] == 'i' then Some(LTS)
        else if p[2] == 'f' then Some(RCS)
        else None
      case 25 =>
        if p[2] == 'd' then Some(ASH)
        else if p[2] == 'g' then Some(EAH)
        else if p[2] == 'a' then Some(PCS)
        else None
      case 26 =>
        if p[2] == 'm' then Some(CDH)
        else if p[2] == 'g' then Some(EAS)
        else None
      case 27 =>
        if p[2] == 'm' then Some(CDS)
        else if p[2] == 'n' then Some(CPH)
        else if p[2] == 'f' && p[6] == 'a' then Some(RIH)
        else if p[2] == 'f' && p[6] == 'e' then Some(RTH)
        else None
      case 28 =>
        if p[2] == 'n' then Some(CPS)
        else if p[2] == 'd' then Some(IPH)
        else if p[2] == 'f' then Some(RTS)
        else None
      case 29 => Some(IPS)
      case 31 => Some(STATPVT)
      case 40 => Some(AS)
      case 42 => Some(RHUC)
      case _ => None
  }

  /*
   * The key recovers every abbreviation. The 41 cases are split into small
   * groups, named after their first and last members, only to keep each proof
   * small; `KeyRecoversAbbreviation` joins them.
   */
  lemma KeyRecoversStatToPvtl(a: BillTextVersionAbbreviation)
    requires a == STAT || a == PL || a == PVTL
    ensures AbbreviationByKey(AbbreviationPhrase(a)) == Some(a)
  {
  }

  lemma KeyRecoversPpToSc(a: BillTextVersionAbbreviation)
    requires a == PP || a == ENR || a == SC
    ensures AbbreviationByKey(AbbreviationPhrase(a)) == Some(a)
  {
  }

  lemma KeyRecoversAthToPap(a: BillTextVersionAbbreviation)
    requires a == ATH || a == ATS || a == PAP
    ensures AbbreviationByKey(AbbreviationPhrase(a)) == Some(a)
  {
  }

  lemma KeyRecoversRfhToEh(a: BillTextVersionAbbreviation)
    requires a == RFH || a == RH || a == EH
    ensures AbbreviationByKey(AbbreviationPhrase(a)) == Some(a)
  {
  }

  lemma KeyRecoversRdsToRs(a: BillTextVersionAbbreviation)
    requires a == RDS || a == RFS || a == RS
    ensures AbbreviationByKey(AbbreviationPhrase(a)) == Some(a)
  {
  }

  lemma KeyRecoversEsToIh(a: BillTextVersionAbbreviation)
    requires a == ES || a == HDS || a == IH
    ensures AbbreviationByKey(AbbreviationPhrase(a)) == Some(a)
  {
  }

  lemma KeyRecoversFphToFps(a: BillTextVersionAbbreviation)
    requires a == FPH || a == IS || a == FPS
    ensures AbbreviationByKey(AbbreviationPhrase(a)) == Some(a)
  {
  }

  lemma KeyRecoversLthToLts(a: BillTextVersionAbbreviation)
    requires a == LTH || a == RCH || a == LTS
    ensures AbbreviationByKey(AbbreviationPhrase(a)) == Some(a)
  {
  }

  lemma KeyRecoversRcsToEah(a: BillTextVersionAbbreviation)
    requires a == RCS || a == ASH || a == EAH
    ensures AbbreviationByKey(AbbreviationPhrase(a)) == Some(a)
  {
  }

  lemma KeyRecoversPcsToEas(a: BillTextVersionAbbreviation)
    requires a == PCS || a == CDH || a == EAS
    ensures AbbreviationByKey(AbbreviationPhrase(a)) == Some(a)
  {
  }

  lemma KeyRecoversCdsToRih(a: BillTextVersionAbbreviation)
    requires a == CDS || a == CPH || a == RIH
    ensures AbbreviationByKey(AbbreviationPhrase(a)) == Some(a)
  {
  }

  lemma KeyRecoversRthToIph(a: BillTextVersionAbbreviation)
    requires a == RTH || a == CPS || a == IPH
    ensures AbbreviationByKey(AbbreviationPhrase(a)) == Some(a)
  {
  }

  lemma KeyRecoversRtsToStatpvt(a: BillTextVersionAbbreviation)
    requires a == RTS || a == IPS || a == STATPVT
    ensures AbbreviationByKey(AbbreviationPhrase(a)) == Some(a)
  {
  }

  lemma KeyRecoversAsToRhuc(a: BillTextVersionAbbreviation)
    requires a == AS || a == RHUC
    ensures AbbreviationByKey(AbbreviationPhrase(a)) == Some(a)
  {
  }

  /** The key of an abbreviation's phrase leads back to that abbreviation. */
  lemma KeyRecoversAbbreviation(a: BillTextVersionAbbreviation)
    ensures AbbreviationByKey(AbbreviationPhrase(a)) == Some(a)
  {
    match a
    case STAT | PL | PVTL => KeyRecoversStatToPvtl(a);
    case PP | ENR | SC => KeyRecoversPpToSc(a);
    case ATH | ATS | PAP => KeyRecoversAthToPap(a);
    case RFH | RH | EH => KeyRecoversRfhToEh(a);
    case RDS | RFS | RS => KeyRecoversRdsToRs(a);
    case ES | HDS | IH => KeyRecoversEsToIh(a);
    case FPH | IS | FPS => KeyRecoversFphToFps(a);
    case LTH | RCH | LTS => KeyRecoversLthToLts(a);
    case RCS | ASH | EAH => KeyRecoversRcsToEah(a);
    case PCS | CDH | EAS => KeyRecoversPcsToEas(a);
    case CDS | CPH | RIH => KeyRecoversCdsToRih(a);
    case RTH | CPS | IPH => KeyRecoversRthToIph(a);
    case RTS | IPS | STATPVT => KeyRecoversRtsToStatpvt(a);
    case AS | RHUC => KeyRecoversAsToRhuc(a);
  }

  /** No two abbreviations display as the same phrase. */
  lemma {:induction false} PhrasesDistinct(a: BillTextVersionAbbreviation, b: BillTextVersionAbbreviation)
    ensures AbbreviationPhrase(a) == AbbreviationPhrase(b) ==> a == b
  {
    KeyRecoversAbbreviation(a);
    KeyRecoversAbbreviation(b);
  }
}
