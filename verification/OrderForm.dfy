/** The website order form (webflow/order-form.js) together with its address checker
    (public/webflow/address-autocomplete.js), cut at their awaits: each step runs
    without interruption. Field texts are already trimmed. */
module OrderForm {
  import opened Options

  // ----- the answer to an order POST -------------------------------------------------------

  datatype OrderPart = OrderPart(validId: bool, orderNumber: int, knownStatus: bool)

  /** A decoded body: not an object, or the fields that are looked at. `success` is None
      when it is not a boolean; `listedErrors` says that `errors` is a non-empty list of
      entries with a path and a message. */
  datatype Body =
    | NotRecord
    | Record(success: Option<bool>, code: string, message: string, listedErrors: bool, order: Option<OrderPart>)

  const CLOSED_MESSAGE: string := "Ordering is currently unavailable while Speedy Sweeties is closed."

  predicate IsKnownRejection(status: Option<int>, body: Body) {
    if status.None? then false
    else if status.value == 429 then true
    else if body.NotRecord? || body.success != Some(false) then false
    else if status.value == 503 then body.code == "ADDRESS_CHECK_UNAVAILABLE"
    else if status.value == 409 then body.message == CLOSED_MESSAGE
    else status.value == 400 && (body.code == "INVALID_DELIVERY_ADDRESS" || body.listedErrors)
  }

  predicate IsOrderAcknowledgement(body: Body) {
    && body.Record? && body.success == Some(true) && body.order.Some?
    && body.order.value.validId && body.order.value.knownStatus
    && 0 < body.order.value.orderNumber <= 9007199254740991
  }

  datatype Outcome = Rejected(closed: bool) | Acknowledged | Ambiguous

  function Classify(status: Option<int>, body: Body): Outcome {
    if IsKnownRejection(status, body) then
      Rejected(status == Some(409) && body.Record? && body.message == CLOSED_MESSAGE)
    else if status.None? || !(200 <= status.value <= 299) || !IsOrderAcknowledgement(body) then Ambiguous
    else Acknowledged
  }

  // ----- state ------------------------------------------------------------------------------

  datatype Business = Checking | Open | Closed | Unknown

  /** Where the one submission that can be under way waits, with the address it read. */
  datatype Stage =
    | Idle
    | Verifying(version: nat, snapshot: string, address: string, city: string)
    | AwaitingStatus(payloadKey: string)
    | Posting

  /** A suggestion whose details were requested. */
  datatype Choice = Choice(version: nat, before: string)

  datatype Mark =
    | Submitted
    | Verified(key: string)
    | Touched
    | Chosen(key: string)
    | Post(key: string, formKey: string, business: Business)
    | Answer(outcome: Outcome)

  datatype Form = Form(
    address: string,
    city: string,
    selected: Option<string>,
    generation: nat,
    choices: seq<Choice>,
    stage: Stage,
    submitting: bool,
    unconfirmed: bool,
    hidden: bool,
    business: Business,
    pendingStatus: bool,
    marks: seq<Mark>)
  {
    function Key(): string { address + "|" + city }
  }

  function Loaded(address: string, city: string): Form {
    Form(address, city, None, 0, [], Idle, false, false, false, Checking, true, [])
  }

  // ----- the address checker -----------------------------------------------------------------

  /** `cancel` and dropping the selection: every handler that reacts to the customer. */
  function Dropped(f: Form): Form { f.(generation := f.generation + 1, selected := None) }

  function Marked(f: Form, mark: Mark): Form { f.(marks := f.marks + [mark]) }

  function AddressInput(f: Form, address: string): Form { Marked(Dropped(f.(address := address)), Touched) }

  function CityChange(f: Form, city: string): Form { Marked(Dropped(f.(city := city)), Touched) }

  function ChooseStart(f: Form): Form {
    var g := Marked(Dropped(f), Touched);
    g.(choices := g.choices + [Choice(g.generation, g.Key())])
  }

  /** The details arrived: an address inside the service area, or None. */
  function ChooseReply(f: Form, i: nat, details: Option<(string, string)>): Form
    requires i < |f.choices|
  {
    if f.choices[i].version != f.generation || f.Key() != f.choices[i].before || details.None? then f
    else
      var g := f.(address := details.value.0, city := details.value.1);
      Marked(g.(selected := Some(g.Key())), Chosen(g.Key()))
  }

  predicate Matches(f: Form, payloadKey: string) {
    f.selected == Some(f.Key()) && f.selected == Some(payloadKey)
  }

  // ----- the submit handler ---------------------------------------------------------------------

  /** The `finally` block. */
  function Finished(f: Form): Form { f.(stage := Idle, submitting := false) }

  /** A submit event; `complete` stands for the other fields passing their checks. */
  function Submit(f: Form, complete: bool): Form {
    if f.submitting || f.unconfirmed || !complete then f
    else
      var g := Dropped(Marked(f.(submitting := true), Submitted));
      if g.address == "" || g.city == "" then Finished(g)
      else g.(stage := Verifying(g.generation, g.Key(), g.address, g.city))
  }

  /** The address check answered, or failed. */
  function VerifyReply(f: Form, verified: bool): Form {
    if !f.stage.Verifying? then f
    else
      var s := f.stage;
      if !verified || s.version != f.generation || f.Key() != s.snapshot then Finished(f)
      else
        var g := Marked(f.(selected := Some(s.snapshot)), Verified(s.snapshot));
        if s.address != g.address || s.city != g.city then Finished(g)
        else g.(stage := AwaitingStatus(s.address + "|" + s.city), pendingStatus := true)
  }

  /** The shared opening-hours request answered. */
  function StatusReply(f: Form, business: Business): Form {
    if !f.pendingStatus then f
    else
      var g := f.(business := business, pendingStatus := false);
      if !g.stage.AwaitingStatus? then g
      else if business.Closed? || !Matches(g, g.stage.payloadKey) then Finished(g)
      else Marked(g.(stage := Posting), Post(g.stage.payloadKey, g.Key(), business))
  }

  function PostReply(f: Form, status: Option<int>, body: Body): Form {
    if !f.stage.Posting? then f
    else
      var outcome := Classify(status, body);
      var g := Marked(f, Answer(outcome));
      match outcome
      case Rejected(closed) => Finished(if closed then g.(business := Closed) else g)
      case Acknowledged => Finished(g.(hidden := true))
      case Ambiguous => Finished(g.(unconfirmed := true))
  }

  /** The interval, and the page becoming visible or online. */
  function RefreshHours(f: Form): Form {
    if f.submitting || f.unconfirmed || f.hidden then f else f.(pendingStatus := true)
  }

  datatype Event =
    | InputEvent(address: string)
    | CityEvent(city: string)
    | SilentFill(address: string, city: string)
    | EscapeKey
    | Choose
    | Details(i: nat, details: Option<(string, string)>)
    | SubmitEvent(complete: bool)
    | VerifyAnswer(verified: bool)
    | StatusAnswer(business: Business)
    | PostAnswer(status: Option<int>, body: Body)
    | HoursTimer

  /** SilentFill is a browser filling the fields without any event. */
  function Step(f: Form, e: Event): Form {
    match e
    case InputEvent(address) => AddressInput(f, address)
    case CityEvent(city) => CityChange(f, city)
    case SilentFill(address, city) => f.(address := address, city := city)
    case EscapeKey => f.(generation := f.generation + 1)
    case Choose => ChooseStart(f)
    case Details(i, details) => if i < |f.choices| then ChooseReply(f, i, details) else f
    case SubmitEvent(complete) => Submit(f, complete)
    case VerifyAnswer(verified) => VerifyReply(f, verified)
    case StatusAnswer(business) => StatusReply(f, business)
    case PostAnswer(status, body) => PostReply(f, status, body)
    case HoursTimer => RefreshHours(f)
  }

  function Run(f: Form, events: seq<Event>): Form {
    if events == [] then f else Step(Run(f, events[..|events| - 1]), events[|events| - 1])
  }

  // ----- what each event does --------------------------------------------------------------------

  /** The server turned the order down: too many requests, or a reason the form knows. */
  predicate TurnedDown(status: Option<int>, body: Body) {
    || status == Some(429)
    || (body.Record? && body.success == Some(false) &&
        (|| (status == Some(503) && body.code == "ADDRESS_CHECK_UNAVAILABLE")
         || ClosedReported(status, body)
         || (status == Some(400) && (body.code == "INVALID_DELIVERY_ADDRESS" || body.listedErrors))))
  }

  predicate ClosedReported(status: Option<int>, body: Body) {
    status == Some(409) && body.Record? && body.success == Some(false) &&
    body.message == "Ordering is currently unavailable while Speedy Sweeties is closed."
  }

  /** The server took the order, and names it in full. */
  predicate Taken(status: Option<int>, body: Body) {
    && status.Some? && 200 <= status.value < 300 && body.Record? && body.success == Some(true)
    && body.order.Some? && body.order.value.validId && body.order.value.knownStatus
    && 1 <= body.order.value.orderNumber < 9_007_199_254_740_992
  }

  /** What an answer, or none, is taken for. */
  lemma AnswersTold(status: Option<int>, body: Body)
    ensures Classify(status, body).Rejected? <==> TurnedDown(status, body)
    ensures Classify(status, body) == Rejected(true) <==> ClosedReported(status, body)
    ensures Classify(status, body) == Acknowledged <==> Taken(status, body)
  {
  }

  /** The submission ends; a closure is remembered, an order taken hides the form, and any
      answer that is neither a refusal nor an order leaves it unconfirmed. */
  lemma AnswerDoes(f: Form, status: Option<int>, body: Body)
    requires f.stage.Posting?
    ensures var g := Step(f, PostAnswer(status, body));
      && g.stage.Idle? && !g.submitting
      && (g.unconfirmed <==> f.unconfirmed || !(TurnedDown(status, body) || Taken(status, body)))
      && (g.hidden <==> f.hidden || Taken(status, body))
      && g.business == (if ClosedReported(status, body) then Closed else f.business)
      && (g.address, g.city, g.selected, g.generation, g.choices, g.pendingStatus) ==
         (f.address, f.city, f.selected, f.generation, f.choices, f.pendingStatus)
  {
    AnswersTold(status, body);
  }

  /** A submit event starts an address check exactly when none runs, no outcome is open and
      every field is filled in. */
  lemma SubmitDoes(f: Form, complete: bool)
    ensures var g := Step(f, SubmitEvent(complete));
      if f.submitting || f.unconfirmed || !complete then g == f
      else
        && g.marks == f.marks + [Submitted] && g.selected.None? && g.generation == f.generation + 1
        && (if f.address == "" || f.city == "" then g.stage.Idle? && !g.submitting
            else g.submitting && g.stage == Verifying(g.generation, f.address + "|" + f.city, f.address, f.city))
  {
  }

  /** The check counts exactly when the address is verified and nothing was touched since. */
  lemma VerifyDoes(f: Form, verified: bool)
    requires f.stage.Verifying? && f.stage.snapshot == f.stage.address + "|" + f.stage.city
    ensures var g := Step(f, VerifyAnswer(verified));
      if verified && f.generation == f.stage.version && f.address == f.stage.address && f.city == f.stage.city
      then g.submitting == f.submitting && g.stage == AwaitingStatus(f.address + "|" + f.city) &&
           g.pendingStatus && g.selected == Some(f.address + "|" + f.city)
      else g.stage.Idle? && !g.submitting && g.pendingStatus == f.pendingStatus
  {
  }

  /** The hours answer sends the POST exactly when it is not closed and the selected key is
      the form's and the payload's. */
  lemma HoursAnswerDoes(f: Form, business: Business)
    requires f.pendingStatus
    ensures var g := Step(f, StatusAnswer(business));
      && g.business == business && !g.pendingStatus
      && (f.stage.AwaitingStatus? ==>
            if business != Closed && f.selected == Some(f.address + "|" + f.city) == Some(f.stage.payloadKey)
            then g.stage.Posting? && g.marks == f.marks + [Post(f.stage.payloadKey, f.stage.payloadKey, business)]
            else g.stage.Idle? && !g.submitting && g.marks == f.marks)
      && (!f.stage.AwaitingStatus? ==> g == f.(business := business, pendingStatus := false))
  {
  }

  /** A page just loaded has asked for the hours, and takes the answer. */
  lemma LoadedDoes(address: string, city: string, business: Business)
    ensures Step(Loaded(address, city), StatusAnswer(business)) ==
            Form(address, city, None, 0, [], Idle, false, false, false, business, false, [])
  {
  }

  /** The handlers of the address fields, and the hours timer. */
  lemma FieldsDo(f: Form, text: string, city: string)
    ensures Step(f, InputEvent(text)) ==
            f.(address := text, selected := None, generation := f.generation + 1, marks := f.marks + [Touched])
    ensures Step(f, CityEvent(text)) ==
            f.(city := text, selected := None, generation := f.generation + 1, marks := f.marks + [Touched])
    ensures Step(f, Choose) ==
            f.(selected := None, generation := f.generation + 1, marks := f.marks + [Touched],
               choices := f.choices + [Choice(f.generation + 1, f.address + "|" + f.city)])
    ensures Step(f, EscapeKey) == f.(generation := f.generation + 1)
    ensures Step(f, SilentFill(text, city)) == f.(address := text, city := city)
    ensures Step(f, HoursTimer) == f.(pendingStatus := f.pendingStatus || !(f.submitting || f.unconfirmed || f.hidden))
  {
  }

  /** The details of a suggestion count only if nothing was touched since it was chosen. */
  lemma DetailsDo(f: Form, i: nat, details: Option<(string, string)>)
    requires i < |f.choices|
    ensures var g := Step(f, Details(i, details));
      if f.choices[i] == Choice(f.generation, f.address + "|" + f.city) && details.Some? then
        var (address, city) := details.value;
        var key := address + "|" + city;
        g == f.(address := address, city := city, selected := Some(key), marks := f.marks + [Chosen(key)])
      else g == f
  {
  }

  // ----- what a history of marks says ------------------------------------------------------------

  /** POST i was answered, clearly, before position `upto`. */
  predicate Settled(marks: seq<Mark>, i: nat, upto: nat)
    requires upto <= |marks|
  {
    exists k :: i < k < upto && marks[k].Answer? && !marks[k].outcome.Ambiguous?
  }

  /** Every POST before `upto` was answered clearly, and no answer was ambiguous. */
  ghost predicate AllSettled(marks: seq<Mark>, upto: nat)
    requires upto <= |marks|
  {
    && (forall i :: 0 <= i < upto && marks[i].Post? ==> Settled(marks, i, upto))
    && (forall i :: 0 <= i < upto ==> marks[i] != Answer(Ambiguous))
  }

  /** The address key was verified at j, and no submission has begun since. */
  predicate VerifiedAt(marks: seq<Mark>, j: nat, upto: nat, key: string)
    requires upto <= |marks|
  {
    j < upto && marks[j] == Verified(key) && forall k :: j < k < upto ==> !marks[k].Submitted?
  }

  predicate TouchedSince(marks: seq<Mark>, j: nat, upto: nat)
    requires upto <= |marks|
  {
    exists k :: j < k < upto && marks[k].Touched?
  }

  predicate ChosenSince(marks: seq<Mark>, j: nat, upto: nat)
    requires upto <= |marks|
  {
    exists k :: j < k < upto && marks[k].Chosen?
  }

  /** After j, the last thing done to the address was to choose a suggestion that gave
      this key. */
  predicate Rechosen(marks: seq<Mark>, j: nat, upto: nat, key: string)
    requires upto <= |marks|
  {
    exists k :: j < k < upto && marks[k] == Chosen(key) && !TouchedSince(marks, k, upto) && !ChosenSince(marks, k, upto)
  }

  predicate HeldSince(marks: seq<Mark>, j: nat, upto: nat, key: string)
    requires upto <= |marks|
  {
    && (TouchedSince(marks, j, upto) <==> Rechosen(marks, j, upto, key))
    && (TouchedSince(marks, j, upto) <==> ChosenSince(marks, j, upto))
  }

  /** A POST follows only settled ones; its key is the form's and was verified by the server
      in this very submission; the address was touched since if and only if the last thing
      done to it was to choose a suggestion that gave this key again, and otherwise no
      suggestion was chosen either; and the shop was not known to be closed. */
  ghost predicate GoodPost(marks: seq<Mark>, at: nat)
    requires at < |marks| && marks[at].Post?
  {
    var key := marks[at].key;
    && AllSettled(marks, at) && marks[at].formKey == key && !marks[at].business.Closed?
    && exists j :: VerifiedAt(marks, j, at, key) && HeldSince(marks, j, at, key)
  }

  // ----- later marks do not change what earlier ones say ---------------------------------------------

  lemma SettledStable(marks: seq<Mark>, mark: Mark, i: nat, upto: nat)
    requires upto <= |marks|
    ensures Settled(marks + [mark], i, upto) <==> Settled(marks, i, upto)
  {
    if Settled(marks, i, upto) {
      var k :| i < k < upto && marks[k].Answer? && !marks[k].outcome.Ambiguous?;
      assert (marks + [mark])[k] == marks[k];
    }
  }

  lemma AllSettledStable(marks: seq<Mark>, mark: Mark, upto: nat)
    requires upto <= |marks|
    ensures AllSettled(marks + [mark], upto) <==> AllSettled(marks, upto)
  {
    var more := marks + [mark];
    assert forall i :: 0 <= i < upto ==> more[i] == marks[i];
    forall i | 0 <= i < upto ensures Settled(more, i, upto) <==> Settled(marks, i, upto) {
      SettledStable(marks, mark, i, upto);
    }
  }

  lemma SinceStable(marks: seq<Mark>, mark: Mark, j: nat, upto: nat, key: string)
    requires upto <= |marks|
    ensures VerifiedAt(marks + [mark], j, upto, key) <==> VerifiedAt(marks, j, upto, key)
    ensures TouchedSince(marks + [mark], j, upto) <==> TouchedSince(marks, j, upto)
    ensures ChosenSince(marks + [mark], j, upto) <==> ChosenSince(marks, j, upto)
  {
    var more := marks + [mark];
    assert forall i :: 0 <= i < upto ==> more[i] == marks[i];
  }

  lemma RechosenStable(marks: seq<Mark>, mark: Mark, j: nat, upto: nat, key: string)
    requires upto <= |marks|
    ensures Rechosen(marks + [mark], j, upto, key) <==> Rechosen(marks, j, upto, key)
  {
    forall k | j < k < upto
      ensures TouchedSince(marks + [mark], k, upto) <==> TouchedSince(marks, k, upto)
      ensures ChosenSince(marks + [mark], k, upto) <==> ChosenSince(marks, k, upto)
    {
      SinceStable(marks, mark, k, upto, key);
    }
  }

  lemma SinceNext(marks: seq<Mark>, mark: Mark, j: nat, key: string)
    requires VerifiedAt(marks, j, |marks|, key) && !mark.Submitted?
    ensures var (more, n) := (marks + [mark], |marks| + 1);
      && VerifiedAt(more, j, n, key)
      && (TouchedSince(more, j, n) <==> TouchedSince(marks, j, |marks|) || mark.Touched?)
      && (ChosenSince(more, j, n) <==> ChosenSince(marks, j, |marks|) || mark.Chosen?)
  {
    var more := marks + [mark];
    SinceStable(marks, mark, j, |marks|, key);
    assert forall i :: 0 <= i < |marks| ==> more[i] == marks[i];
    assert more[|marks|] == mark;
  }

  lemma GoodPostStable(marks: seq<Mark>, mark: Mark, at: nat)
    requires at < |marks| && marks[at].Post? && GoodPost(marks, at)
    ensures GoodPost(marks + [mark], at)
  {
    var key := marks[at].key;
    AllSettledStable(marks, mark, at);
    var j :| VerifiedAt(marks, j, at, key) && HeldSince(marks, j, at, key);
    SinceStable(marks, mark, j, at, key);
    RechosenStable(marks, mark, j, at, key);
  }

  // ----- the invariant ---------------------------------------------------------------------------------

  ghost predicate PostsGood(marks: seq<Mark>) {
    forall i :: 0 <= i < |marks| && marks[i].Post? ==> GoodPost(marks, i)
  }

  /** The last POST, at p, is the only one not yet settled. */
  ghost predicate OpenPost(marks: seq<Mark>, p: nat) {
    && p < |marks| && marks[p].Post? && AllSettled(marks, p)
    && forall k :: p < k < |marks| ==> !marks[k].Post? && marks[k] != Answer(Ambiguous)
  }

  /** Since the address was verified at j: untouched, no details request can still count;
      touched, only the last chosen suggestion is selected. */
  ghost predicate Holding(f: Form, j: nat, key: string) {
    && VerifiedAt(f.marks, j, |f.marks|, key)
    && (ChosenSince(f.marks, j, |f.marks|) ==> TouchedSince(f.marks, j, |f.marks|))
    && (!TouchedSince(f.marks, j, |f.marks|) ==> forall c :: c in f.choices ==> c.version != f.generation)
    && (TouchedSince(f.marks, j, |f.marks|) && f.selected.Some? ==>
          Rechosen(f.marks, j, |f.marks|, f.selected.value))
  }

  ghost predicate StageGood(f: Form) {
    match f.stage
    case Idle => true
    case Verifying(version, snapshot, address, city) =>
      snapshot == address + "|" + city && version <= f.generation &&
      forall c :: c in f.choices ==> c.version != version
    case AwaitingStatus(key) => f.pendingStatus && exists j :: Holding(f, j, key)
    case Posting => !f.pendingStatus && exists p :: OpenPost(f.marks, p)
  }

  ghost predicate Inv(f: Form) {
    && (f.submitting <==> !f.stage.Idle?) && (f.unconfirmed ==> f.stage.Idle?)
    && (forall c :: c in f.choices ==> c.version <= f.generation)
    && PostsGood(f.marks)
    && (f.stage.Posting? || f.unconfirmed || AllSettled(f.marks, |f.marks|))
    && StageGood(f)
  }

  /** A mark that is neither a POST nor an answer to one. */
  predicate Aside(mark: Mark) { !mark.Post? && !mark.Answer? }

  lemma AsideKeeps(marks: seq<Mark>, mark: Mark)
    requires PostsGood(marks) && Aside(mark)
    ensures PostsGood(marks + [mark])
    ensures AllSettled(marks, |marks|) ==> AllSettled(marks + [mark], |marks| + 1)
    ensures forall p :: OpenPost(marks, p) ==> OpenPost(marks + [mark], p)
  {
    var more := marks + [mark];
    assert forall i :: 0 <= i < |marks| ==> more[i] == marks[i];
    forall i | 0 <= i < |more| && more[i].Post? ensures GoodPost(more, i) { GoodPostStable(marks, mark, i); }
    if AllSettled(marks, |marks|) {
      AllSettledStable(marks, mark, |marks|);
      forall i | 0 <= i < |more| && more[i].Post? ensures Settled(more, i, |more|) {
        assert Settled(more, i, |marks|);
      }
    }
    forall p | OpenPost(marks, p) ensures OpenPost(more, p) { AllSettledStable(marks, mark, p); }
  }

  /** A step of the address checker: fields, selection, generation and choices move on,
      nothing else does. */
  lemma AddressStepInv(f: Form, g: Form, mark: Mark)
    requires Inv(f) && Aside(mark) && !mark.Submitted? && !mark.Verified?
    requires g.marks == f.marks + [mark]
    requires g == f.(address := g.address, city := g.city, selected := g.selected, generation := g.generation,
                     choices := g.choices, marks := g.marks)
    requires f.generation <= g.generation
    requires forall c :: c in g.choices ==> c.version <= g.generation && (c in f.choices || f.generation < c.version)
    requires mark.Touched? ==> f.generation < g.generation && g.selected.None?
    requires mark.Chosen? ==> g.selected == Some(mark.key) && g.choices == f.choices && g.generation == f.generation &&
                              exists c :: c in f.choices && c.version == f.generation
    requires mark.Touched? || mark.Chosen?
    ensures Inv(g)
  {
    AsideKeeps(f.marks, mark);
    match f.stage {
      case AwaitingStatus(key) =>
        var j :| Holding(f, j, key);
        SinceNext(f.marks, mark, j, key);
        if mark.Chosen? { assert g.marks[|f.marks|] == Chosen(mark.key); }
        assert Holding(g, j, key);
      case Posting =>
        var p :| OpenPost(f.marks, p);
        assert OpenPost(g.marks, p);
      case _ =>
    }
  }

  /** Filling without events, and Escape, leave no mark. */
  lemma QuietStepInv(f: Form, g: Form)
    requires Inv(f) && f.generation <= g.generation
    requires g == f.(address := g.address, city := g.city, generation := g.generation)
    ensures Inv(g)
  {
    if f.stage.AwaitingStatus? {
      var j :| Holding(f, j, f.stage.payloadKey);
      assert Holding(g, j, f.stage.payloadKey);
    }
  }

  lemma SubmitInv(f: Form, complete: bool)
    requires Inv(f)
    ensures Inv(Submit(f, complete))
  {
    if !f.submitting && !f.unconfirmed && complete {
      AsideKeeps(f.marks, Submitted);
    }
  }

  lemma VerifyInv(f: Form, verified: bool)
    requires Inv(f)
    ensures Inv(VerifyReply(f, verified))
  {
    if f.stage.Verifying? {
      var s, n := f.stage, |f.marks|;
      if verified && s.version == f.generation && f.Key() == s.snapshot {
        var g := VerifyReply(f, verified);
        AsideKeeps(f.marks, Verified(s.snapshot));
        assert VerifiedAt(g.marks, n, n + 1, s.snapshot);
        if g.stage.AwaitingStatus? { assert Holding(g, n, s.snapshot); }
      }
    }
  }

  /** While the verified key is the one selected, it is held. */
  lemma SelectedIsHeld(f: Form, j: nat, key: string)
    requires Holding(f, j, key) && f.selected == Some(key)
    ensures HeldSince(f.marks, j, |f.marks|, key)
  {
    if Rechosen(f.marks, j, |f.marks|, key) { assert ChosenSince(f.marks, j, |f.marks|); }
  }

  lemma StatusInv(f: Form, business: Business)
    requires Inv(f)
    ensures Inv(StatusReply(f, business))
  {
    if f.pendingStatus && f.stage.AwaitingStatus? && !business.Closed? && Matches(f, f.stage.payloadKey) {
      var key, n := f.stage.payloadKey, |f.marks|;
      var mark := Post(key, f.Key(), business);
      var more := f.marks + [mark];
      var j :| Holding(f, j, key);
      AllSettledStable(f.marks, mark, n);
      SelectedIsHeld(f, j, key);
      SinceStable(f.marks, mark, j, n, key);
      RechosenStable(f.marks, mark, j, n, key);
      assert VerifiedAt(more, j, n, key) && HeldSince(more, j, n, key);
      assert forall i :: 0 <= i < n ==> more[i] == f.marks[i];
      assert GoodPost(more, n);
      forall i | 0 <= i < |more| && more[i].Post? ensures GoodPost(more, i) {
        if i < n { GoodPostStable(f.marks, mark, i); }
      }
      assert OpenPost(more, n);
    }
  }

  lemma AnsweredKeeps(marks: seq<Mark>, p: nat, outcome: Outcome)
    requires PostsGood(marks) && OpenPost(marks, p)
    ensures PostsGood(marks + [Answer(outcome)])
    ensures !outcome.Ambiguous? ==> AllSettled(marks + [Answer(outcome)], |marks| + 1)
  {
    var n, more := |marks|, marks + [Answer(outcome)];
    assert forall i :: 0 <= i < n ==> more[i] == marks[i];
    forall i | 0 <= i < |more| && more[i].Post? ensures GoodPost(more, i) {
      GoodPostStable(marks, Answer(outcome), i);
    }
    if !outcome.Ambiguous? {
      forall i | 0 <= i < n && more[i].Post? ensures Settled(more, i, n + 1) {
        assert more[n].Answer?;
      }
    }
  }

  lemma AnswerInv(f: Form, status: Option<int>, body: Body)
    requires Inv(f)
    ensures Inv(PostReply(f, status, body))
  {
    if f.stage.Posting? {
      var p :| OpenPost(f.marks, p);
      AnsweredKeeps(f.marks, p, Classify(status, body));
    }
  }

  lemma TouchInv(f: Form, g: Form)
    requires Inv(f) && g == Marked(Dropped(f.(address := g.address, city := g.city)), Touched)
    ensures Inv(g)
  {
    AddressStepInv(f, g, Touched);
  }

  lemma ChooseInv(f: Form)
    requires Inv(f)
    ensures Inv(ChooseStart(f))
  {
    AddressStepInv(f, ChooseStart(f), Touched);
  }

  lemma DetailsInv(f: Form, i: nat, details: Option<(string, string)>)
    requires Inv(f) && i < |f.choices|
    ensures Inv(ChooseReply(f, i, details))
  {
    var g := ChooseReply(f, i, details);
    if g != f { AddressStepInv(f, g, Chosen(g.Key())); }
  }

  lemma HoursInv(f: Form)
    requires Inv(f)
    ensures Inv(RefreshHours(f))
  {
  }

  lemma {:induction false} StepInv(f: Form, e: Event)
    requires Inv(f)
    ensures Inv(Step(f, e))
  {
    match e {
      case InputEvent(address) => TouchInv(f, AddressInput(f, address));
      case CityEvent(city) => TouchInv(f, CityChange(f, city));
      case SilentFill(_, _) => QuietStepInv(f, Step(f, e));
      case EscapeKey => QuietStepInv(f, Step(f, e));
      case Choose => ChooseInv(f);
      case Details(i, details) => if i < |f.choices| { DetailsInv(f, i, details); }
      case SubmitEvent(complete) => SubmitInv(f, complete);
      case VerifyAnswer(verified) => VerifyInv(f, verified);
      case StatusAnswer(business) => StatusInv(f, business);
      case PostAnswer(status, body) => AnswerInv(f, status, body);
      case HoursTimer => HoursInv(f);
    }
  }

  lemma {:induction false} RunInv(address: string, city: string, events: seq<Event>)
    ensures Inv(Run(Loaded(address, city), events))
  {
    if events != [] {
      var init := events[..|events| - 1];
      RunInv(address, city, init);
      StepInv(Run(Loaded(address, city), init), events[|events| - 1]);
    }
  }

  // ----- main results -----------------------------------------------------------------------------------

  /** In every run, every POST is a good one: so two POSTs never overlap, each POST but the
      last was clearly answered, and none follows an ambiguous outcome. */
  lemma {:induction false} EveryPostIsGood(address: string, city: string, events: seq<Event>, at: nat)
    requires var marks := Run(Loaded(address, city), events).marks; at < |marks| && marks[at].Post?
    ensures GoodPost(Run(Loaded(address, city), events).marks, at)
  {
    RunInv(address, city, events);
  }

  /** No edit event lies between a POST and what last selected its key: the verification in
      that submission, or the choice of a suggestion since. */
  lemma NoEditSinceSelection(address: string, city: string, events: seq<Event>, at: nat) returns (k: nat)
    requires var marks := Run(Loaded(address, city), events).marks; at < |marks| && marks[at].Post?
    ensures var marks := Run(Loaded(address, city), events).marks;
      && k < at && marks[k] in [Verified(marks[at].key), Chosen(marks[at].key)]
      && forall i :: k < i < at ==> !marks[i].Touched? && !marks[i].Chosen? && !marks[i].Submitted?
  {
    RunInv(address, city, events);
    var marks := Run(Loaded(address, city), events).marks;
    var key := marks[at].key;
    assert GoodPost(marks, at);
    k :| VerifiedAt(marks, k, at, key) && HeldSince(marks, k, at, key);
    if TouchedSince(marks, k, at) {
      var chosen :| k < chosen < at && marks[chosen] == Chosen(key) &&
                    !TouchedSince(marks, chosen, at) && !ChosenSince(marks, chosen, at);
      k := chosen;
    }
  }

  lemma OpenOutcomeStep(f: Form, e: Event)
    requires f.unconfirmed && f.stage.Idle?
    ensures var g := Step(f, e);
      g.unconfirmed && g.stage.Idle? && f.marks <= g.marks &&
      forall k :: |f.marks| <= k < |g.marks| ==> !g.marks[k].Post?
  {
  }

  lemma {:induction false} OpenOutcomeRun(f: Form, events: seq<Event>)
    requires f.unconfirmed && f.stage.Idle?
    ensures var g := Run(f, events);
      g.unconfirmed && g.stage.Idle? && f.marks <= g.marks &&
      forall k :: |f.marks| <= k < |g.marks| ==> !g.marks[k].Post?
  {
    if events != [] {
      var init := events[..|events| - 1];
      OpenOutcomeRun(f, init);
      OpenOutcomeStep(Run(f, init), events[|events| - 1]);
    }
  }

  lemma {:induction false} RunSplit(f: Form, events: seq<Event>, more: seq<Event>)
    ensures Run(f, events + more) == Run(Run(f, events), more)
    decreases |more|
  {
    if more == [] {
      assert events + more == events;
    } else {
      assert (events + more)[..|events + more| - 1] == events + more[..|more| - 1];
      RunSplit(f, events, more[..|more| - 1]);
    }
  }

  /** Once a POST gets no answer, or one that neither refuses nor takes the order, no POST is
      ever sent again, whatever happens. */
  lemma NoPostAfterOpenOutcome(
    address: string, city: string, events: seq<Event>, status: Option<int>, body: Body, more: seq<Event>)
    requires Run(Loaded(address, city), events).stage.Posting?
    requires !TurnedDown(status, body) && !Taken(status, body)
    ensures var (before, after) :=
      (Run(Loaded(address, city), events).marks,
       Run(Loaded(address, city), events + [PostAnswer(status, body)] + more).marks);
      before <= after && forall k :: |before| <= k < |after| ==> !after[k].Post?
  {
    var start := Loaded(address, city);
    var f, g := Run(start, events), Run(start, events + [PostAnswer(status, body)]);
    RunExtends(start, events, PostAnswer(status, body));
    AnswerDoes(f, status, body);
    assert g.marks == f.marks + [Answer(Classify(status, body))];
    OpenOutcomeRun(g, more);
    RunSplit(start, events + [PostAnswer(status, body)], more);
  }

  /** A closure reported by the POST cannot be overwritten by an hours request that was
      sent before it. */
  lemma ReportedClosureStands(address: string, city: string, events: seq<Event>, body: Body, late: Business)
    requires Run(Loaded(address, city), events).stage.Posting?
    requires Classify(Some(409), body) == Rejected(true)
    ensures var g := PostReply(Run(Loaded(address, city), events), Some(409), body);
      g.business.Closed? && !g.submitting && StatusReply(g, late) == g
  {
    RunInv(address, city, events);
  }

  lemma RunExtends(f: Form, events: seq<Event>, e: Event)
    ensures Run(f, events + [e]) == Step(Run(f, events), e)
  {
    assert (events + [e])[..|events|] == events;
  }

  lemma Then(start: Form, events: seq<Event>, f: Form, e: Event) returns (more: seq<Event>, after: Form)
    requires f == Run(start, events)
    ensures after == Step(f, e) == Run(start, more)
  {
    more, after := events + [e], Step(f, e);
    RunExtends(start, events, e);
  }

  lemma VerifiedSubmission(address: string, city: string) returns (events: seq<Event>)
    requires address != "" && city != ""
    ensures var key := Loaded(address, city).Key();
      Run(Loaded(address, city), events) ==
      Form(address, city, Some(key), 1, [], AwaitingStatus(key), true, false, false, Checking, true,
           [Submitted, Verified(key)])
  {
    var start := Loaded(address, city);
    var f: Form;
    events, f := Then(start, [], start, SubmitEvent(true));
    events, f := Then(start, events, f, VerifyAnswer(true));
    assert f.marks == [Submitted, Verified(start.Key())];
  }

  /** The customer retypes the address while the opening hours are rechecked. */
  lemma RetypedAfterVerification(address: string, city: string, other: string) returns (events: seq<Event>)
    requires address != "" && city != ""
    ensures var key := Loaded(address, city).Key();
      Run(Loaded(address, city), events) ==
      Form(other, city, None, 2, [], AwaitingStatus(key), true, false, false, Checking, true,
           [Submitted, Verified(key), Touched])
  {
    var start := Loaded(address, city);
    var f: Form;
    events := VerifiedSubmission(address, city);
    events, f := Then(start, events, Run(start, events), InputEvent(other));
    assert f.marks == [Submitted, Verified(start.Key()), Touched];
  }

  /** A suggestion is chosen then that gives the verified address again. */
  lemma RechosenAfterVerification(address: string, city: string, other: string) returns (events: seq<Event>)
    requires address != "" && city != ""
    ensures var (key, typed) := (Loaded(address, city).Key(), Loaded(other, city).Key());
      Run(Loaded(address, city), events) ==
      Form(address, city, Some(key), 3, [Choice(3, typed)], AwaitingStatus(key), true, false, false, Checking, true,
           [Submitted, Verified(key), Touched, Touched, Chosen(key)])
  {
    var start := Loaded(address, city);
    var key := start.Key();
    events := RetypedAfterVerification(address, city, other);
    var f := Run(start, events);
    events, f := Then(start, events, f, Choose);
    assert f.choices == [Choice(3, f.Key())];
    assert f.marks == [Submitted, Verified(key), Touched, Touched];
    events, f := Then(start, events, f, Details(0, Some((address, city))));
    assert f.marks == [Submitted, Verified(key), Touched, Touched, Chosen(key)];
  }

  /** So any address can be edited after its verification and still be posted. */
  lemma EditedAfterVerification(address: string, city: string, other: string) returns (events: seq<Event>)
    requires address != "" && city != ""
    ensures var key := Loaded(address, city).Key();
      Run(Loaded(address, city), events).marks ==
      [Submitted, Verified(key), Touched, Touched, Chosen(key), Post(key, key, Open)]
  {
    var start := Loaded(address, city);
    var f: Form;
    events := RechosenAfterVerification(address, city, other);
    events, f := Then(start, events, Run(start, events), StatusAnswer(Open));
  }

  // ----- the page's closures --------------------------------------------------------------------------------

  class OrderPage {
    var address: string
    var city: string
    var selected: Option<string>
    var generation: nat
    var choices: seq<Choice>
    var stage: Stage
    var submitting: bool
    var unconfirmed: bool
    var hidden: bool
    var business: Business
    var pendingStatus: bool
    var marks: seq<Mark>

    function State(): Form
      reads this
    {
      Form(address, city, selected, generation, choices, stage, submitting, unconfirmed, hidden,
           business, pendingStatus, marks)
    }

    constructor (address: string, city: string)
      ensures State() == Loaded(address, city)
    {
      this.address, this.city := address, city;
      selected, generation, choices, stage := None, 0, [], Idle;
      submitting, unconfirmed, hidden := false, false, false;
      business, pendingStatus, marks := Checking, true, [];
    }

    method Drop()
      modifies this`generation, this`selected
      ensures State() == Dropped(old(State()))
    {
      generation := generation + 1;
      selected := None;
    }

    method OnAddressInput(address: string)
      modifies this
      ensures State() == AddressInput(old(State()), address)
    {
      this.address := address;
      Drop();
      marks := marks + [Touched];
    }

    method OnCityChange(city: string)
      modifies this
      ensures State() == CityChange(old(State()), city)
    {
      this.city := city;
      Drop();
      marks := marks + [Touched];
    }

    method ChooseSuggestion()
      modifies this
      ensures State() == ChooseStart(old(State()))
    {
      Drop();
      marks := marks + [Touched];
      choices := choices + [Choice(generation, address + "|" + city)];
    }

    method OnDetails(i: nat, details: Option<(string, string)>)
      requires i < |choices|
      modifies this
      ensures State() == ChooseReply(old(State()), i, details)
    {
      if choices[i].version != generation || address + "|" + city != choices[i].before { return; }
      if details.None? { return; }
      address, city := details.value.0, details.value.1;
      selected := Some(address + "|" + city);
      marks := marks + [Chosen(address + "|" + city)];
    }

    method Finish()
      modifies this`stage, this`submitting
      ensures State() == Finished(old(State()))
    {
      stage := Idle;
      submitting := false;
    }

    method OnSubmit(complete: bool)
      modifies this
      ensures State() == Submit(old(State()), complete)
    {
      if submitting || unconfirmed || !complete { return; }
      submitting := true;
      marks := marks + [Submitted];
      Drop();
      if address == "" || city == "" { Finish(); return; }
      stage := Verifying(generation, address + "|" + city, address, city);
    }

    method OnVerifyAnswer(verified: bool)
      modifies this
      ensures State() == VerifyReply(old(State()), verified)
    {
      if !stage.Verifying? { return; }
      var s := stage;
      if !verified || s.version != generation || address + "|" + city != s.snapshot { Finish(); return; }
      selected := Some(s.snapshot);
      marks := marks + [Verified(s.snapshot)];
      if s.address != address || s.city != city { Finish(); return; }
      stage := AwaitingStatus(s.address + "|" + s.city);
      pendingStatus := true;
    }

    method OnStatusAnswer(answer: Business)
      modifies this
      ensures State() == StatusReply(old(State()), answer)
    {
      if !pendingStatus { return; }
      business := answer;
      pendingStatus := false;
      if !stage.AwaitingStatus? { return; }
      var key := stage.payloadKey;
      if answer.Closed? || selected != Some(address + "|" + city) || selected != Some(key) { Finish(); return; }
      stage := Posting;
      marks := marks + [Post(key, address + "|" + city, answer)];
    }

    method OnPostAnswer(status: Option<int>, body: Body)
      modifies this
      ensures State() == PostReply(old(State()), status, body)
    {
      if !stage.Posting? { return; }
      var outcome := Classify(status, body);
      marks := marks + [Answer(outcome)];
      match outcome {
        case Rejected(closed) => if closed { business := Closed; }
        case Acknowledged => hidden := true;
        case Ambiguous => unconfirmed := true;
      }
      Finish();
    }

    method OnHoursTimer()
      modifies this`pendingStatus
      ensures State() == RefreshHours(old(State()))
    {
      if !submitting && !unconfirmed && !hidden { pendingStatus := true; }
    }
  }
}
