/**
 * The breakpoint classifier of the `useDisplay` composable: from the viewport
 * width and six thresholds it derives one flag per breakpoint, the
 * "and up" / "and down" composites, the breakpoint name, the `mobile` flag and
 * the CSS classes a component can bind. The width is an input here; reading
 * it from the window and listening for resizes is not part of this model.
 */
module Display {
  import opened Wrappers

  datatype Thresholds = Thresholds(xs: int, sm: int, md: int, lg: int, xl: int, xxl: int)

  const DefaultThresholds := Thresholds(0, 640, 768, 1024, 1280, 1536)

  /** The thresholds above `xs` do not decrease (the defaults strictly increase). */
  predicate Ordered(t: Thresholds) {
    t.sm <= t.md <= t.lg <= t.xl <= t.xxl
  }

  predicate StrictlyIncreasing(t: Thresholds) {
    t.xs < t.sm < t.md < t.lg < t.xl < t.xxl
  }

  datatype Breakpoint = XS | SM | MD | LG | XL | XXL

  function Label(b: Breakpoint): string {
    match b
    case XS => "xs"
    case SM => "sm"
    case MD => "md"
    case LG => "lg"
    case XL => "xl"
    case XXL => "xxl"
  }

  /** Position in the order xs < sm < md < lg < xl < xxl. */
  function Rank(b: Breakpoint): nat {
    match b
    case XS => 0
    case SM => 1
    case MD => 2
    case LG => 3
    case XL => 4
    case XXL => 5
  }

  /** `thresholds[key]` */
  function Threshold(t: Thresholds, b: Breakpoint): int {
    match b
    case XS => t.xs
    case SM => t.sm
    case MD => t.md
    case LG => t.lg
    case XL => t.xl
    case XXL => t.xxl
  }

  datatype Flags = Flags(xs: bool, sm: bool, md: bool, lg: bool, xl: bool, xxl: bool)

  function Flag(f: Flags, b: Breakpoint): bool {
    match b
    case XS => f.xs
    case SM => f.sm
    case MD => f.md
    case LG => f.lg
    case XL => f.xl
    case XXL => f.xxl
  }

  /**
   * The six breakpoint flags. For every width at least one holds; when the
   * thresholds are ordered exactly one holds.
   */
  function Breakpoints(width: int, t: Thresholds): (f: Flags)
    ensures exists b :: Flag(f, b)
    ensures Ordered(t) ==> forall b, b' :: Flag(f, b) && Flag(f, b') ==> b == b'
  {
    var f := Flags(
      width < t.sm,
      width >= t.sm && width < t.md,
      width >= t.md && width < t.lg,
      width >= t.lg && width < t.xl,
      width >= t.xl && width < t.xxl,
      width >= t.xxl);
    assert Flag(f, XS) || Flag(f, SM) || Flag(f, MD) || Flag(f, LG) || Flag(f, XL) || Flag(f, XXL);
    f
  }

  datatype Composites = Composites(
    smAndDown: bool, smAndUp: bool,
    mdAndDown: bool, mdAndUp: bool,
    lgAndDown: bool, lgAndUp: bool,
    xlAndDown: bool, xlAndUp: bool)

  /**
   * The eight composites. Each "and down" is the complement of the next
   * "and up"; `smAndDown` is `xs || sm`; and, for ordered thresholds, every
   * composite is the union of the breakpoints it names.
   */
  function CompositeFlags(width: int, t: Thresholds): (c: Composites)
    ensures var f := Breakpoints(width, t);
      && (c.smAndUp <==> !f.xs)
      && (c.smAndDown <==> !c.mdAndUp)
      && (c.mdAndDown <==> !c.lgAndUp)
      && (c.lgAndDown <==> !c.xlAndUp)
      && (c.xlAndDown <==> !f.xxl)
    ensures var f := Breakpoints(width, t);
      Ordered(t) ==>
        && (c.smAndDown <==> f.xs || f.sm)
        && (c.smAndUp <==> f.sm || f.md || f.lg || f.xl || f.xxl)
        && (c.mdAndUp <==> f.md || f.lg || f.xl || f.xxl)
        && (c.mdAndDown <==> f.xs || f.sm || f.md)
        && (c.lgAndUp <==> f.lg || f.xl || f.xxl)
        && (c.lgAndDown <==> f.xs || f.sm || f.md || f.lg)
        && (c.xlAndDown <==> f.xs || f.sm || f.md || f.lg || f.xl)
        && (c.xlAndUp <==> f.xl || f.xxl)
  {
    Composites(
      width < t.md, width >= t.sm,
      width < t.lg, width >= t.md,
      width < t.xl, width >= t.lg,
      width < t.xxl, width >= t.xl)
  }

  /** The first breakpoint whose flag holds, checked from `xs` upward; `xxl` when none of the first five does. */
  function Name(width: int, t: Thresholds): (b: Breakpoint)
    ensures Flag(Breakpoints(width, t), b)
    ensures forall b' :: Rank(b') < Rank(b) ==> !Flag(Breakpoints(width, t), b')
  {
    var f := Breakpoints(width, t);
    if f.xs then XS
    else if f.sm then SM
    else if f.md then MD
    else if f.lg then LG
    else if f.xl then XL
    else XXL
  }

  /** For ordered thresholds the name is the one breakpoint whose flag holds. */
  lemma NameIsTheTrueFlag(width: int, t: Thresholds, b: Breakpoint)
    requires Ordered(t)
    ensures Flag(Breakpoints(width, t), b) <==> b == Name(width, t)
  {
  }

  /** The breakpoint after `b` in the order; `xxl` has none and maps to itself. */
  function Next(b: Breakpoint): Breakpoint {
    match b
    case XS => SM
    case SM => MD
    case MD => LG
    case LG => XL
    case XL => XXL
    case XXL => XXL
  }

  /**
   * Whatever the thresholds, the width has reached the lower threshold of the
   * name and of every breakpoint between `sm` and the name, and it is below
   * the lower threshold of the next breakpoint.
   */
  lemma NameBounds(width: int, t: Thresholds)
    ensures forall b :: b != XS && Rank(b) <= Rank(Name(width, t)) ==> width >= Threshold(t, b)
    ensures Name(width, t) != XXL ==> width < Threshold(t, Next(Name(width, t)))
  {
  }

  /** A wider viewport never has a smaller breakpoint, whatever the thresholds. */
  lemma NameMonotonic(w1: int, w2: int, t: Thresholds)
    requires w1 <= w2
    ensures Rank(Name(w1, t)) <= Rank(Name(w2, t))
  {
    // Were the order reversed, w2 would lie below the threshold of the
    // breakpoint after Name(w2), which w1 has already reached.
    NameBounds(w1, t);
    NameBounds(w2, t);
  }

  datatype MobileBreakpoint = Named(breakpoint: Breakpoint) | Pixels(px: int)

  const DefaultMobileBreakpoint := Named(MD)

  /** `mobile`: the width is below a pixel bound, or below the threshold of a named breakpoint. */
  function Mobile(width: int, t: Thresholds, mb: MobileBreakpoint): (m: bool)
    ensures mb.Pixels? ==> (m <==> width < mb.px)
    ensures mb == Named(MD) ==> (m <==> CompositeFlags(width, t).smAndDown)
    ensures mb == Named(LG) ==> (m <==> CompositeFlags(width, t).mdAndDown)
    ensures mb == Named(SM) ==> (m <==> Breakpoints(width, t).xs)
  {
    match mb
    case Pixels(px) => width < px
    case Named(b) => width < Threshold(t, b)
  }

  /** With ordered thresholds, a named mobile breakpoint above `xs` means "the current breakpoint lies below it". */
  lemma MobileBelowBreakpoint(width: int, t: Thresholds, b: Breakpoint)
    requires Ordered(t) && b != XS
    ensures Mobile(width, t, Named(b)) <==> Rank(Name(width, t)) < Rank(b)
  {
    var n := Name(width, t);
    NameBounds(width, t);
    if Rank(n) < Rank(b) {
      assert Rank(Next(n)) <= Rank(b);
      assert Threshold(t, Next(n)) <= Threshold(t, b);
    }
  }

  /** The composable's options; an absent field takes its default. */
  datatype DisplayOptions = DisplayOptions(
    mobileBreakpoint: Option<MobileBreakpoint>,
    thresholds: Option<Thresholds>,
    name: Option<string>)

  function EffectiveThresholds(o: DisplayOptions): Thresholds {
    if o.thresholds.Some? then o.thresholds.value else DefaultThresholds
  }

  function EffectiveMobileBreakpoint(o: DisplayOptions): MobileBreakpoint {
    if o.mobileBreakpoint.Some? then o.mobileBreakpoint.value else DefaultMobileBreakpoint
  }

  /** `if (options.name)`: a present, non-empty name. */
  predicate HasName(o: DisplayOptions) {
    o.name.Some? && o.name.value != ""
  }

  /**
   * `displayClasses`: nothing without a name; otherwise `<name>--mobile` when
   * mobile, then `<name>--<breakpoint>`.
   */
  function DisplayClasses(width: int, o: DisplayOptions): (classes: seq<string>)
    ensures !HasName(o) ==> classes == []
    ensures HasName(o) ==>
      var t := EffectiveThresholds(o);
      && |classes| == (if Mobile(width, t, EffectiveMobileBreakpoint(o)) then 2 else 1)
      && classes[|classes| - 1] == o.name.value + "--" + Label(Name(width, t))
      && (|classes| == 2 ==> classes[0] == o.name.value + "--mobile")
  {
    if HasName(o) then
      var t := EffectiveThresholds(o);
      var n := o.name.value;
      (if Mobile(width, t, EffectiveMobileBreakpoint(o)) then [n + "--mobile"] else [])
        + [n + "--" + Label(Name(width, t))]
    else []
  }

  /** The default thresholds are 0 < 640 < 768 < 1024 < 1280 < 1536, and by default `mobile` is `smAndDown`. */
  lemma Defaults(width: int)
    ensures StrictlyIncreasing(DefaultThresholds) && Ordered(DefaultThresholds)
    ensures Mobile(width, DefaultThresholds, DefaultMobileBreakpoint) <==> width < 768
    ensures Mobile(width, DefaultThresholds, DefaultMobileBreakpoint)
      <==> CompositeFlags(width, DefaultThresholds).smAndDown
  {
  }
}
