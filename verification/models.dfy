/** The record model: opportunities, their interaction history, the
    construction-time validation rules and the derived "latest interaction"
    and "overdue follow-up" queries. Datetimes are integer seconds. */
module Models {
  import opened Wrappers
  import opened Text

  /** Closed set of interaction kinds. */
  datatype InteractionType =
    | InitialContact | FollowUp | InterviewScreen | InterviewTechnical
    | InterviewFinal | Rejection | Offer | Other

  /** The string each kind is stored as. */
  function TypeValue(t: InteractionType): string {
    match t
    case InitialContact => "initial_contact"
    case FollowUp => "follow_up"
    case InterviewScreen => "interview_screen"
    case InterviewTechnical => "interview_technical"
    case InterviewFinal => "interview_final"
    case Rejection => "rejection"
    case Offer => "offer"
    case Other => "other"
  }

  const CanonicalTypes: map<string, InteractionType> := map[
    "initial_contact" := InitialContact, "follow_up" := FollowUp,
    "interview_screen" := InterviewScreen, "interview_technical" := InterviewTechnical,
    "interview_final" := InterviewFinal, "rejection" := Rejection,
    "offer" := Offer, "other" := Other]

  /** Values written by older versions and the kind each now stands for. */
  const LegacyTypes: map<string, InteractionType> := map[
    "interview" := InterviewScreen,
    "recruiter_email" := InitialContact, "recruiter_call" := InitialContact,
    "email" := InitialContact, "phone" := InitialContact, "linkedin" := InitialContact]

  /** `InteractionType(v)`, falling back to the legacy table and then to `other`:
      the coercion never fails. */
  function CoerceInteractionType(v: string): (t: InteractionType)
    ensures forall k :: v == TypeValue(k) ==> t == k
    ensures v == "interview" ==> t == InterviewScreen
    ensures v in {"recruiter_email", "recruiter_call", "email", "phone", "linkedin"} ==> t == InitialContact
    ensures (forall k :: v != TypeValue(k)) && v !in LegacyTypes ==> t == Other
  {
    if v in CanonicalTypes then
      assert TypeValue(CanonicalTypes[v]) == v;
      CanonicalTypes[v]
    else if v in LegacyTypes then LegacyTypes[v]
    else Other
  }

  /** Closed set of contact methods; unlike interaction kinds there is no fallback. */
  datatype ContactMethod =
    | RecruiterEmail | RecruiterCall | InboundApplication | LinkedinMessage | Referral

  datatype Interaction = Interaction(
    date: int,
    kind: InteractionType,
    contactMethod: Option<ContactMethod>,
    notes: Option<string>)

  datatype Opportunity = Opportunity(
    timestamp: int,
    company: string,
    role: string,
    recruiterName: Option<string>,
    recruiterContact: Option<string>,
    jobDescription: Option<string>,
    resumeText: Option<string>,
    coverLetterText: Option<string>,
    notes: Option<string>,
    nextSteps: Option<string>,
    companyLink: Option<string>,
    source: Option<string>,
    active: bool,
    interestLevel: int,
    interactions: seq<Interaction>,
    status: Option<string>)

  /** Python truthiness of an optional string: present and non-empty. */
  predicate Filled(s: Option<string>) {
    s.Some? && |s.value| > 0
  }

  /** Position of the first occurrence of `c`. */
  function IndexOf(v: string, c: char): (i: nat)
    requires c in v
    ensures i < |v| && v[i] == c && forall j :: 0 <= j < i ==> v[j] != c
  {
    if v[0] == c then 0 else 1 + IndexOf(v[1..], c)
  }

  /** The part after the first `@` (what `v.split('@')[1]` is when there is one `@`). */
  function AfterAt(v: string): string
    decreases |v|
  {
    if |v| == 0 then [] else if v[0] == '@' then v[1..] else AfterAt(v[1..])
  }

  /** The recruiter-contact rule as the source evaluates it. */
  predicate ContactAccepted(c: Option<string>) {
    !Filled(c) || '@' !in c.value || (CountChar(c.value, '@') == 1 && '.' in AfterAt(c.value))
  }

  /** The same rule stated by positions: a contact with an `@` has exactly one,
      and a `.` after it. */
  ghost predicate LooksLikeEmail(v: string) {
    exists i :: 0 <= i < |v| && v[i] == '@'
      && (forall j :: 0 <= j < |v| && j != i ==> v[j] != '@')
      && (exists k :: i < k < |v| && v[k] == '.')
  }

  lemma {:induction false} AfterAtIsSuffix(v: string, i: int)
    requires 0 <= i < |v| && v[i] == '@' && forall j :: 0 <= j < i ==> v[j] != '@'
    ensures AfterAt(v) == v[i + 1..]
    decreases |v|
  {
    if v[0] != '@' {
      AfterAtIsSuffix(v[1..], i - 1);
      assert v[1..][i..] == v[i + 1..];
    }
  }

  lemma {:induction false} CountOneAt(v: string, i: int)
    requires 0 <= i < |v| && v[i] == '@'
    ensures CountChar(v, '@') == 1 <==> forall j :: 0 <= j < |v| && j != i ==> v[j] != '@'
    decreases |v|
  {
    if i == 0 {
      assert CountChar(v, '@') == 1 + CountChar(v[1..], '@');
      assert (forall j :: 0 <= j < |v| && j != 0 ==> v[j] != '@') <==> '@' !in v[1..] by {
        if '@' in v[1..] {
          var j :| 0 <= j < |v[1..]| && v[1..][j] == '@';
          assert v[j + 1] == '@';
        }
      }
    } else {
      CountOneAt(v[1..], i - 1);
      if v[0] == '@' {
        assert CountChar(v[1..], '@') >= 1 by { assert v[1..][i - 1] == '@'; }
      } else {
        assert forall j :: 0 < j < |v| ==> v[j] == v[1..][j - 1];
      }
    }
  }

  /** The contact check accepts exactly the contacts without an `@` and
      those that look like an email address. */
  lemma ContactAcceptedMeaning(c: Option<string>)
    requires Filled(c)
    ensures ContactAccepted(c) <==> '@' !in c.value || LooksLikeEmail(c.value)
  {
    var v := c.value;
    if '@' in v {
      var i := IndexOf(v, '@');
      CountOneAt(v, i);
      AfterAtIsSuffix(v, i);
      if LooksLikeEmail(v) {
        var i' :| 0 <= i' < |v| && v[i'] == '@'
          && (forall j :: 0 <= j < |v| && j != i' ==> v[j] != '@')
          && (exists k :: i' < k < |v| && v[k] == '.');
        assert i' == i;
        var k :| i < k < |v| && v[k] == '.';
        assert v[i + 1..][k - i - 1] == '.';
      }
      if ContactAccepted(c) {
        var k :| 0 <= k < |v[i + 1..]| && v[i + 1..][k] == '.';
        assert v[i + 1 + k] == '.';
      }
    }
  }

  /** Why construction can be refused. */
  datatype FieldError = EmptyCompany | EmptyRole | InvalidEmail | InterestOutOfRange

  predicate InterestInRange(level: int) {
    1 <= level <= 5
  }

  /** The invariants every constructed (and every loaded) opportunity satisfies. */
  predicate Valid(o: Opportunity) {
    |o.company| >= 1 && |o.role| >= 1 && ContactAccepted(o.recruiterContact)
      && InterestInRange(o.interestLevel)
  }

  /** Construction-time validation: the value is accepted unchanged or refused
      with one error per offending field, in declaration order. */
  function Validate(o: Opportunity): (r: Result<Opportunity, seq<FieldError>>)
    ensures r.Success? <==> Valid(o)
    ensures r.Success? ==> r.value == o
    ensures r.Failure? ==> (
      && |r.error| > 0
      && (EmptyCompany in r.error <==> |o.company| == 0)
      && (EmptyRole in r.error <==> |o.role| == 0)
      && (InvalidEmail in r.error <==> !ContactAccepted(o.recruiterContact))
      && (InterestOutOfRange in r.error <==> !InterestInRange(o.interestLevel)))
  {
    var errors :=
      (if |o.company| < 1 then [EmptyCompany] else [])
      + (if |o.role| < 1 then [EmptyRole] else [])
      + (if !ContactAccepted(o.recruiterContact) then [InvalidEmail] else [])
      + (if !InterestInRange(o.interestLevel) then [InterestOutOfRange] else []);
    if |errors| == 0 then Success(o) else Failure(errors)
  }

  /** `JobOpportunity(company=..., role=...)` with every other field defaulted;
      `now` is the creation time. */
  function NewOpportunity(company: string, role: string, now: int): (r: Result<Opportunity, seq<FieldError>>)
    ensures r.Success? <==> |company| >= 1 && |role| >= 1
    ensures r.Success? ==> (
      && r.value.company == company && r.value.role == role
      && r.value.interestLevel == 3 && r.value.active && r.value.interactions == []
      && r.value.timestamp == now && r.value.status == None)
  {
    Validate(Opportunity(now, company, role, None, None, None, None, None, None, None,
      None, None, true, 3, [], None))
  }

  /** `add_interaction`: appends to the history and changes nothing else. */
  function AddInteraction(o: Opportunity, i: Interaction): (r: Opportunity)
    ensures |r.interactions| == |o.interactions| + 1
    ensures r.interactions[|o.interactions|] == i
    ensures r.interactions[..|o.interactions|] == o.interactions
    ensures r.(interactions := o.interactions) == o
    ensures Valid(o) ==> Valid(r)
  {
    o.(interactions := o.interactions + [i])
  }

  /** Index of the interaction `max(..., key=date)` returns: the first one with
      the greatest date. */
  function LatestIndex(s: seq<Interaction>): (k: nat)
    requires |s| > 0
    ensures k < |s|
    ensures forall j :: 0 <= j < |s| ==> s[j].date <= s[k].date
    ensures forall j :: 0 <= j < k ==> s[j].date < s[k].date
  {
    if |s| == 1 then 0
    else
      var m := LatestIndex(s[..|s| - 1]);
      if s[|s| - 1].date > s[m].date then |s| - 1 else m
  }

  /** `get_latest_interaction` */
  function LatestInteraction(s: seq<Interaction>): (r: Option<Interaction>)
    ensures r.None? <==> |s| == 0
    ensures r.Some? ==> r.value in s && forall j :: 0 <= j < |s| ==> s[j].date <= r.value.date
  {
    if |s| == 0 then None else Some(s[LatestIndex(s)])
  }

  const SecondsPerDay := 86400

  /** `timedelta(seconds=delta).days`: whole days, rounded towards minus infinity. */
  function WholeDays(delta: int): (d: int)
    ensures d * SecondsPerDay <= delta < d * SecondsPerDay + SecondsPerDay
  {
    delta / SecondsPerDay
  }

  lemma WholeDaysMonotone(a: int, b: int)
    requires a <= b
    ensures WholeDays(a) <= WholeDays(b)
  {
  }

  /** `is_overdue_followup(days_threshold)` at time `now`. */
  function IsOverdueFollowup(o: Opportunity, now: int, threshold: int): (r: bool)
    ensures |o.interactions| == 0 ==> !r
    ensures !o.active ==> !r
  {
    match LatestInteraction(o.interactions)
    case None => false
    case Some(latest) => WholeDays(now - latest.date) > threshold && o.active
  }

  /** Overdue means active and every recorded interaction more than
      `threshold` whole days old. */
  lemma OverdueMeaning(o: Opportunity, now: int, threshold: int)
    ensures IsOverdueFollowup(o, now, threshold) <==>
      o.active && |o.interactions| > 0
      && forall i :: 0 <= i < |o.interactions| ==> WholeDays(now - o.interactions[i].date) > threshold
  {
    var s := o.interactions;
    if |s| > 0 {
      var k := LatestIndex(s);
      forall i | 0 <= i < |s|
        ensures WholeDays(now - s[k].date) <= WholeDays(now - s[i].date)
      {
        WholeDaysMonotone(now - s[k].date, now - s[i].date);
      }
    }
  }

  /** Search criteria; only the interest bounds are validated. */
  datatype SearchFilters = SearchFilters(
    company: Option<string>,
    role: Option<string>,
    recruiter: Option<string>,
    activeOnly: bool,
    minInterest: Option<int>,
    maxInterest: Option<int>,
    dateFrom: Option<int>,
    dateTo: Option<int>,
    status: Option<string>)

  datatype FilterError = MinInterestOutOfRange | MaxInterestOutOfRange

  predicate BoundAccepted(b: Option<int>) {
    b.None? || InterestInRange(b.value)
  }

  /** `SearchFilters(...)` validation: each interest bound is absent or in 1..5. */
  function ValidateFilters(f: SearchFilters): (r: Result<SearchFilters, seq<FilterError>>)
    ensures r.Success? <==> (
      && (f.minInterest.None? || 1 <= f.minInterest.value <= 5)
      && (f.maxInterest.None? || 1 <= f.maxInterest.value <= 5))
    ensures r.Success? ==> r.value == f
    ensures r.Failure? ==> (
      && (MinInterestOutOfRange in r.error <==> !BoundAccepted(f.minInterest))
      && (MaxInterestOutOfRange in r.error <==> !BoundAccepted(f.maxInterest)))
  {
    var errors :=
      (if !BoundAccepted(f.minInterest) then [MinInterestOutOfRange] else [])
      + (if !BoundAccepted(f.maxInterest) then [MaxInterestOutOfRange] else []);
    if |errors| == 0 then Success(f) else Failure(errors)
  }
}
