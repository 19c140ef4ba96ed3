/**
 * The "go to slide" link of a slide presentation: how its constructor turns
 * its parameters into the link's title, tab index, classes and navigation
 * target, and what one activation of the link does.
 */
module GoToSlide {
  import opened Options
  import opened JsStrings
  import opened Decimal

  /** The `navigationType` enumeration; `Other` is any other string given as the type. */
  datatype NavType = Specified | Next | Previous | Other

  const SPECIFIED: string := "specified"
  const NEXT: string := "next"
  const PREVIOUS: string := "previous"

  /** The parameters of one link as configured in the presentation. */
  datatype Params = Params(
    title: Option<string>,
    goToSlide: Option<int>,
    invisible: bool,
    goToSlideType: Option<string>)

  /** The localised strings the constructor reads; a key may be missing. */
  datatype L10n = L10n(goToSlide: Option<string>, nextSlide: Option<string>, prevSlide: Option<string>)

  /** What the presentation passes in besides the parameters. */
  datatype Context = Context(l10n: L10n, currentIndex: int)

  /** The attributes of the anchor element the constructor creates. */
  datatype Anchor = Anchor(href: string, classes: string, tabIndex: int, title: Option<string>)

  /** A constructed link: its element and the slide index it navigates to. */
  datatype Control = Control(element: Anchor, goTo: int)

  /** The constructor throws when it must fill a title template that is missing. */
  datatype Error = TypeError

  const BASE_CLASS: string := "h5p-press-to-go"
  const VISIBLE_CLASS: string := " h5p-visible"
  const PLACEHOLDER: string := ":num"
  /** `String(undefined)`, what `replace` substitutes for a missing noun. */
  const UNDEFINED: string := "undefined"

  /** The type named by `goToSlideType`, which defaults to "specified" only when it is absent. */
  function NavTypeOf(goToSlideType: Option<string>): (t: NavType)
    ensures t == Specified <==> goToSlideType == None || goToSlideType == Some(SPECIFIED)
    ensures t == Next <==> goToSlideType == Some(NEXT)
    ensures t == Previous <==> goToSlideType == Some(PREVIOUS)
  {
    match goToSlideType
    case None => Specified
    case Some(s) =>
      if s == SPECIFIED then Specified
      else if s == NEXT then Next
      else if s == PREVIOUS then Previous
      else Other
  }

  /** The one-based slide number, which defaults to 1 when absent. */
  function SlideNumber(goToSlide: Option<int>): int
  {
    match goToSlide
    case None => 1
    case Some(n) => n
  }

  /** JavaScript truthiness of a title: absent and empty titles are both false. */
  predicate Truthy(title: Option<string>)
  {
    title.Some? && title.value != ""
  }

  /** The text put in place of `:num`: a missing noun is converted to the string "undefined". */
  function Noun(noun: Option<string>): string
  {
    match noun
    case None => UNDEFINED
    case Some(s) => s
  }

  /**
   * The title of the link. An invisible link has none; a visible one keeps a
   * non-empty given title, and otherwise fills the template for a recognised
   * type and keeps what it was given for any other type.
   */
  function ResolveTitle(p: Params, l10n: L10n): Result<Option<string>, Error>
  {
    if p.invisible then Ok(None)
    else if Truthy(p.title) then Ok(p.title)
    else
      match NavTypeOf(p.goToSlideType)
      case Other => Ok(p.title)
      case t =>
        if l10n.goToSlide.None? then Err(TypeError)
        else
          var rep := match t
            case Specified => IntToDecimal(SlideNumber(p.goToSlide))
            case Next => Noun(l10n.nextSlide)
            case Previous => Noun(l10n.prevSlide);
          Ok(Some(ReplaceFirst(l10n.goToSlide.value, PLACEHOLDER, rep)))
  }

  function ResolveTabIndex(invisible: bool): int
  {
    if invisible then -1 else 0
  }

  function ResolveClasses(invisible: bool): string
  {
    if invisible then BASE_CLASS else BASE_CLASS + VISIBLE_CLASS
  }

  /** The zero-based slide to go to: relative to the current slide for next and previous, never clamped. */
  function ResolveTarget(t: NavType, goToSlide: int, currentIndex: int): int
  {
    match t
    case Next => currentIndex + 1
    case Previous => currentIndex - 1
    case _ => goToSlide - 1
  }

  /** The constructor: all four values resolved, or the error it throws. */
  function Create(p: Params, ctx: Context): (r: Result<Control, Error>)
    ensures r.Err? <==>
      !p.invisible && !Truthy(p.title) && NavTypeOf(p.goToSlideType) != Other && ctx.l10n.goToSlide.None?
    ensures r.Ok? ==> r.value.element.href == "#"
    ensures r.Ok? ==> r.value.element.tabIndex == (if p.invisible then -1 else 0)
    ensures r.Ok? ==> r.value.element.classes == (if p.invisible then BASE_CLASS else BASE_CLASS + VISIBLE_CLASS)
    ensures r.Ok? && p.invisible ==> r.value.element.title == None
    ensures r.Ok? && !p.invisible && Truthy(p.title) ==> r.value.element.title == p.title
    ensures r.Ok? && !p.invisible && NavTypeOf(p.goToSlideType) == Other ==> r.value.element.title == p.title
    ensures r.Ok? ==> r.value.goTo == match NavTypeOf(p.goToSlideType)
      case Next => ctx.currentIndex + 1
      case Previous => ctx.currentIndex - 1
      case _ => SlideNumber(p.goToSlide) - 1
  {
    match ResolveTitle(p, ctx.l10n)
    case Err(e) => Err(e)
    case Ok(title) =>
      var element := Anchor("#", ResolveClasses(p.invisible), ResolveTabIndex(p.invisible), title);
      Ok(Control(element, ResolveTarget(NavTypeOf(p.goToSlideType), SlideNumber(p.goToSlide), ctx.currentIndex)))
  }

  /** With no slide number and no type given, the link goes to the first slide. */
  lemma DefaultTargetIsFirstSlide(p: Params, ctx: Context)
    requires p.goToSlide == None && p.goToSlideType == None
    requires Create(p, ctx).Ok?
    ensures Create(p, ctx).value.goTo == 0
  {
  }

  /** For next and previous the configured slide number has no effect on the target. */
  lemma RelativeTargetIgnoresSlideNumber(p: Params, q: Params, ctx: Context)
    requires NavTypeOf(p.goToSlideType) in {Next, Previous}
    requires q == p.(goToSlide := q.goToSlide)
    requires Create(p, ctx).Ok? && Create(q, ctx).Ok?
    ensures Create(p, ctx).value.goTo == Create(q, ctx).value.goTo
  {
  }

  /** For a specified or unrecognised type the current slide has no effect on the target. */
  lemma AbsoluteTargetIgnoresCurrentIndex(p: Params, ctx: Context, ctx': Context)
    requires NavTypeOf(p.goToSlideType) in {Specified, Other}
    requires Create(p, ctx).Ok? && Create(p, ctx').Ok?
    ensures Create(p, ctx).value.goTo == Create(p, ctx').value.goTo
  {
  }

  /**
   * A visible untitled link of the specified type is titled with the template
   * in which the leftmost `:num` has become the decimal slide number, which
   * reads back as that number.
   */
  lemma {:induction false} SpecifiedTitleNamesSlide(p: Params, ctx: Context, i: nat)
    requires !p.invisible && !Truthy(p.title) && NavTypeOf(p.goToSlideType) == Specified
    requires ctx.l10n.goToSlide.Some?
    requires IsAt(ctx.l10n.goToSlide.value, PLACEHOLDER, i)
    requires forall j: nat :: j < i ==> !IsAt(ctx.l10n.goToSlide.value, PLACEHOLDER, j)
    ensures Create(p, ctx).Ok?
    ensures
      var t := ctx.l10n.goToSlide.value;
      var num := IntToDecimal(SlideNumber(p.goToSlide));
      Create(p, ctx).value.element.title == Some(t[..i] + num + t[i + |PLACEHOLDER|..])
      && IsDecimal(num) && DecimalValue(num) == SlideNumber(p.goToSlide)
  {
    var t := ctx.l10n.goToSlide.value;
    var num := IntToDecimal(SlideNumber(p.goToSlide));
    ReplaceFirstLiteral(t, PLACEHOLDER, num, i);
    DecimalRoundTrip(SlideNumber(p.goToSlide));
  }

  /**
   * A visible untitled link of the next or previous type is titled with the
   * template in which the leftmost `:num` has become the localised noun
   * ("undefined" when that key is missing), provided the noun holds no `$`.
   */
  lemma {:induction false} RelativeTitleNamesNoun(p: Params, ctx: Context, i: nat)
    requires !p.invisible && !Truthy(p.title) && NavTypeOf(p.goToSlideType) in {Next, Previous}
    requires ctx.l10n.goToSlide.Some?
    requires IsAt(ctx.l10n.goToSlide.value, PLACEHOLDER, i)
    requires forall j: nat :: j < i ==> !IsAt(ctx.l10n.goToSlide.value, PLACEHOLDER, j)
    requires '$' !in Noun(if NavTypeOf(p.goToSlideType) == Next then ctx.l10n.nextSlide else ctx.l10n.prevSlide)
    ensures Create(p, ctx).Ok?
    ensures
      var t := ctx.l10n.goToSlide.value;
      var noun := Noun(if NavTypeOf(p.goToSlideType) == Next then ctx.l10n.nextSlide else ctx.l10n.prevSlide);
      Create(p, ctx).value.element.title == Some(t[..i] + noun + t[i + |PLACEHOLDER|..])
  {
    var t := ctx.l10n.goToSlide.value;
    var noun := Noun(if NavTypeOf(p.goToSlideType) == Next then ctx.l10n.nextSlide else ctx.l10n.prevSlide);
    ReplaceFirstLiteral(t, PLACEHOLDER, noun, i);
  }

  /** A template without `:num` becomes the title unchanged, for every recognised type. */
  lemma {:induction false} TemplateWithoutPlaceholder(p: Params, ctx: Context)
    requires !p.invisible && !Truthy(p.title) && NavTypeOf(p.goToSlideType) != Other
    requires ctx.l10n.goToSlide.Some?
    requires forall j: nat :: !IsAt(ctx.l10n.goToSlide.value, PLACEHOLDER, j)
    ensures Create(p, ctx).Ok? && Create(p, ctx).value.element.title == ctx.l10n.goToSlide
  {
    var t := ctx.l10n.goToSlide.value;
    ReplaceFirstAbsent(t, PLACEHOLDER, IntToDecimal(SlideNumber(p.goToSlide)));
    ReplaceFirstAbsent(t, PLACEHOLDER, Noun(ctx.l10n.nextSlide));
    ReplaceFirstAbsent(t, PLACEHOLDER, Noun(ctx.l10n.prevSlide));
  }

  // ---------------------------------------------------------------------------
  // Activation

  const CONSUME_VERB: string := "http://activitystrea.ms/schema/1.0/consume"
  const EN_US: string := "en-US"
  const FALLBACK_NAME: string := "Go To slide"
  const NAVIGATE: string := "navigate"

  /** The parts of the xAPI "consumed" statement the link fills in; language maps are keyed by locale. */
  datatype Statement = Statement(verbId: string, verbDisplay: map<string, string>, completion: bool, objectName: map<string, string>)

  /** What one activation does, in order: report a statement, emit an event, suppress the default action. */
  datatype Effect = Report(statement: Statement) | Emit(event: string, target: int) | PreventDefault

  /** The statement's object name: the title when it is non-empty, else a fixed fallback. */
  function ObjectName(title: Option<string>): (name: string)
    ensures name != ""
    ensures Truthy(title) ==> name == title.value
    ensures !Truthy(title) ==> name == FALLBACK_NAME
  {
    if Truthy(title) then title.value else FALLBACK_NAME
  }

  /** The "consumed" statement reported for a link with the given title. */
  function ConsumedStatement(title: Option<string>): (s: Statement)
    ensures s.verbId == CONSUME_VERB && s.verbDisplay == map[EN_US := "consumed"] && s.completion
    ensures s.objectName == map[EN_US := ObjectName(title)] && s.objectName[EN_US] != ""
  {
    Statement(CONSUME_VERB, map[EN_US := "consumed"], true, map[EN_US := ObjectName(title)])
  }

  /** The effects of one click or key activation of a constructed link. */
  function Activate(c: Control): (trace: seq<Effect>)
    ensures |trace| == 3
    ensures trace[0] == Report(ConsumedStatement(c.element.title))
    ensures trace[0].Report? && trace[0].statement.verbId == CONSUME_VERB && trace[0].statement.completion
    ensures EN_US in trace[0].statement.objectName
    ensures trace[0].statement.objectName[EN_US] == ObjectName(c.element.title)
    ensures trace[1] == Emit(NAVIGATE, c.goTo)
    ensures trace[2] == PreventDefault
  {
    [Report(ConsumedStatement(c.element.title)), Emit(NAVIGATE, c.goTo), PreventDefault]
  }

  /** The number of effects in a trace that emit an event. */
  function EmitCount(trace: seq<Effect>): nat
  {
    if trace == [] then 0 else (if trace[0].Emit? then 1 else 0) + EmitCount(trace[1..])
  }

  /**
   * One activation emits exactly one event, `navigate` with the link's target,
   * after the statement is reported and before the default action is suppressed.
   */
  lemma NavigatesOnce(c: Control)
    ensures EmitCount(Activate(c)) == 1
    ensures forall k :: 0 <= k < |Activate(c)| && Activate(c)[k].Emit? ==>
      Activate(c)[k] == Emit(NAVIGATE, c.goTo)
      && (forall j :: 0 <= j < k ==> Activate(c)[j].Report?)
      && (forall j :: k < j < |Activate(c)| ==> Activate(c)[j] == PreventDefault)
  {
    var t := Activate(c);
    assert t[1..][1..][1..] == [];
    assert EmitCount(t[1..][1..]) == 0;
    assert EmitCount(t[1..]) == 1;
  }

  /**
   * The statement reported on activation names the resolved title: the given
   * title of a visible link when it is non-empty, and "Go To slide" for every
   * invisible link.
   */
  lemma ReportedName(p: Params, ctx: Context)
    requires Create(p, ctx).Ok?
    ensures p.invisible ==> Activate(Create(p, ctx).value)[0].statement.objectName[EN_US] == FALLBACK_NAME
    ensures !p.invisible && Truthy(p.title) ==>
      Activate(Create(p, ctx).value)[0].statement.objectName[EN_US] == p.title.value
  {
  }
}
