/** The state rules of `portfolio-script.js`: the colour theme, the greeting, the project
    filter, the cursor trail, the mobile menu, the button ripple and the contact modal. */
module Portfolio {
  import opened Wrappers

  // ---------------------------------------------------------------- theme

  const Dark: string := "dark"
  const Light: string := "light"
  /** The toggle's label in the dark theme (a crescent moon) and in the light one (a sun). */
  const MoonLabel: string := "\U{1F319}"
  const SunLabel: string := "\U{2600}\U{FE0F}"

  /** The theme the page starts with: the saved one when it is a non-empty text, else the
      system preference. */
  function InitialTheme(saved: Option<string>, prefersDark: bool): (theme: string)
    ensures theme != []
    ensures saved.Some? && saved.value != [] ==> theme == saved.value
    ensures (saved.None? || saved.value == []) ==> (theme == Dark <==> prefersDark)
  {
    if saved.Some? && saved.value != [] then saved.value
    else if prefersDark then Dark else Light
  }

  /** The theme a click switches to. */
  function NextTheme(current: string): (next: string)
    ensures next == Dark || next == Light
    ensures next == Dark <==> current != Dark
  {
    if current == Dark then Light else Dark
  }

  /** Two clicks restore a dark or light theme; and a saved click survives a reload,
      whatever the system prefers. */
  lemma ThemeRoundTrip(current: string, prefersDark: bool)
    requires current == Dark || current == Light
    ensures NextTheme(NextTheme(current)) == current
    ensures InitialTheme(Some(NextTheme(current)), prefersDark) == NextTheme(current)
  {
  }

  /** The theme toggle: the body's `data-theme` attribute, the toggle's label, and the
      `preferredTheme` entry of local storage. */
  class Theme {
    var dataTheme: Option<string>
    var toggleLabel: string
    var preferred: Option<string>

    /** The theme a click reads back from the page. */
    function Current(): (theme: string)
      reads this
      ensures theme == Dark || theme == Light
    {
      if dataTheme == Some(Dark) then Dark else Light
    }

    /** The label matches the theme shown. */
    ghost predicate Valid()
      reads this
    {
      && (dataTheme == Some(Dark) || dataTheme == None)
      && toggleLabel == (if Current() == Dark then MoonLabel else SunLabel)
    }

    /** Start-up: applies the saved theme, or the system preference. */
    constructor(saved: Option<string>, prefersDark: bool)
      ensures Valid()
      ensures Current() == Dark <==> InitialTheme(saved, prefersDark) == Dark
      ensures preferred == saved
    {
      dataTheme := None;
      toggleLabel := SunLabel;
      preferred := saved;
      new;
      ApplyTheme(InitialTheme(saved, prefersDark));
    }

    /** `applyTheme`: `"dark"` sets the attribute and the moon; anything else removes the
        attribute and shows the sun. */
    method ApplyTheme(theme: string)
      modifies this
      ensures dataTheme == (if theme == Dark then Some(Dark) else None)
      ensures toggleLabel == (if theme == Dark then MoonLabel else SunLabel)
      ensures preferred == old(preferred)
      ensures Valid()
      ensures Current() == Dark <==> theme == Dark
    {
      if theme == Dark {
        dataTheme := Some(Dark);
        toggleLabel := MoonLabel;
      } else {
        dataTheme := None;
        toggleLabel := SunLabel;
      }
    }

    /** A click on the toggle: shows the other theme and saves it. */
    method Click()
      modifies this
      ensures Valid()
      ensures Current() == NextTheme(old(Current()))
      ensures preferred == Some(Current())
    {
      var current := if dataTheme == Some(Dark) then Dark else Light;
      var next := if current == Dark then Light else Dark;
      ApplyTheme(next);
      preferred := Some(next);
    }
  }

  // ---------------------------------------------------------------- greeting

  datatype Period = Morning | Afternoon | Evening

  /** The part of the day an hour falls in. */
  function PeriodOf(hour: int): (p: Period)
    ensures p == Morning <==> hour < 12
    ensures p == Afternoon <==> 12 <= hour < 18
    ensures p == Evening <==> 18 <= hour
  {
    if hour < 12 then Morning else if hour < 18 then Afternoon else Evening
  }

  const Languages: seq<string> := ["sq", "en", "de", "es", "fr", "zh", "ar", "pt", "ru", "ja"]

  /** The first, second or third of three texts, by the part of the day. */
  function ByPeriod(p: Period, morning: string, afternoon: string, evening: string): string {
    match p
    case Morning => morning
    case Afternoon => afternoon
    case Evening => evening
  }

  /** The `greetings` table: a greeting for each known language, nothing for others. */
  function GreetingIn(lang: string, p: Period): (g: Option<string>)
    ensures g.Some? <==> lang in Languages
    ensures g.Some? ==> g.value != []
  {
    if lang == "sq" then Some(ByPeriod(p, "Mirëmëngjes", "Mirëdita", "Mirëmbrëma"))
    else if lang == "en" then Some(ByPeriod(p, "Good morning", "Good afternoon", "Good evening"))
    else if lang == "de" then Some(ByPeriod(p, "Guten Morgen", "Guten Tag", "Guten Abend"))
    else if lang == "es" then Some(ByPeriod(p, "Buenos días", "Buenas tardes", "Buenas noches"))
    else if lang == "fr" then Some(ByPeriod(p, "Bonjour", "Bon après-midi", "Bonsoir"))
    else if lang == "zh" then Some(ByPeriod(p, "早上好", "下午好", "晚上好"))
    else if lang == "ar" then Some(ByPeriod(p, "صباح الخير", "مساء الخير", "مساء الخير"))
    else if lang == "pt" then Some(ByPeriod(p, "Bom dia", "Boa tarde", "Boa noite"))
    else if lang == "ru" then Some(ByPeriod(p, "Доброе утро", "Добрый день", "Добрый вечер"))
    else if lang == "ja" then Some(ByPeriod(p, "おはようございます", "こんにちは", "こんばんは"))
    else None
  }

  /** `updateGreeting`: the greeting for the hour in the stored language (`sq` when none
      is stored), falling back to `sq` for a language the table lacks. */
  function Greeting(hour: int, storedLang: Option<string>): (g: string)
    ensures g != []
  {
    var lang := if storedLang.Some? && storedLang.value != [] then storedLang.value else "sq";
    var p := PeriodOf(hour);
    match GreetingIn(lang, p)
    case Some(text) => text
    case None => GreetingIn("sq", p).value
  }

  /** A known language gets its own greeting; any other stored value, the empty one and no
      value at all get the Albanian one. */
  lemma GreetingFallback(hour: int, lang: string)
    ensures lang in Languages ==> Greeting(hour, Some(lang)) == GreetingIn(lang, PeriodOf(hour)).value
    ensures lang !in Languages ==> Greeting(hour, Some(lang)) == Greeting(hour, None)
    ensures Greeting(hour, None) == GreetingIn("sq", PeriodOf(hour)).value
  {
  }

  /** The Albanian greetings by hour: before noon, until six, and after. */
  lemma AlbanianGreetings(hour: int)
    ensures hour < 12 ==> Greeting(hour, None) == "Mirëmëngjes"
    ensures 12 <= hour < 18 ==> Greeting(hour, None) == "Mirëdita"
    ensures 18 <= hour ==> Greeting(hour, None) == "Mirëmbrëma"
  {
  }

  // ---------------------------------------------------------------- project filter

  /** A card is shown for the filter `all` and for the filter equal to its category; a
      missing attribute is `None`, and two missing attributes are equal. */
  predicate Shown(filter: Option<string>, category: Option<string>) {
    filter == Some("all") || category == filter
  }

  /** The `all` filter shows every card; any other filter shows exactly the cards of its
      own category. */
  lemma FilterSelects(filter: Option<string>, categories: seq<Option<string>>)
    ensures filter == Some("all") ==> forall i :: 0 <= i < |categories| ==> Shown(filter, categories[i])
    ensures filter != Some("all") ==>
              forall i :: 0 <= i < |categories| ==> (Shown(filter, categories[i]) <==> categories[i] == filter)
  {
  }

  /** The filter buttons with their `data-filter` and `active` class, and the project cards
      with their `data-category` and whether they end up displayed. */
  class ProjectFilter {
    var filters: seq<Option<string>>
    var active: seq<bool>
    var categories: seq<Option<string>>
    var displayed: seq<bool>

    ghost predicate Valid()
      reads this
    {
      |active| == |filters| && |displayed| == |categories|
    }

    constructor(filters: seq<Option<string>>, active: seq<bool>, categories: seq<Option<string>>)
      requires |active| == |filters|
      ensures Valid()
      ensures this.filters == filters && this.active == active && this.categories == categories
      ensures displayed == seq(|categories|, i => true)
    {
      this.filters := filters;
      this.active := active;
      this.categories := categories;
      displayed := seq(|categories|, i => true);
    }

    /** A click on button `b`: only `b` is active afterwards, and exactly the cards its
        filter selects are displayed. */
    method Click(b: nat)
      requires Valid() && b < |filters|
      modifies this
      ensures Valid()
      ensures filters == old(filters) && categories == old(categories)
      ensures forall i :: 0 <= i < |active| ==> (active[i] <==> i == b)
      ensures forall i :: 0 <= i < |displayed| ==> (displayed[i] <==> Shown(filters[b], categories[i]))
    {
      var filter := filters[b];
      for i := 0 to |filters|
        invariant |active| == |filters| && filters == old(filters)
        invariant displayed == old(displayed) && categories == old(categories)
        invariant forall j :: 0 <= j < i ==> !active[j]
      {
        active := active[i := false];
      }
      active := active[b := true];
      for i := 0 to |categories|
        invariant |displayed| == |categories| && categories == old(categories)
        invariant |active| == |filters| && filters == old(filters)
        invariant forall j :: 0 <= j < |active| ==> (active[j] <==> j == b)
        invariant forall j :: 0 <= j < i ==> (displayed[j] <==> Shown(filter, categories[j]))
      {
        if filter == Some("all") || categories[i] == filter {
          displayed := displayed[i := true];
        } else {
          displayed := displayed[i := false];
        }
      }
    }
  }

  // ---------------------------------------------------------------- cursor trail

  datatype Point = Point(x: int, y: int, time: int)

  const TrailLength: nat := 10
  /** Mouse moves count only on windows wider than this. */
  const WideScreen: int := 968

  /** The last `n` elements of `s`, or all of them when there are fewer. */
  function LastN<T>(s: seq<T>, n: nat): (r: seq<T>)
    ensures |r| == if |s| < n then |s| else n
    ensures forall i :: 0 <= i < |r| ==> r[i] == s[|s| - |r| + i]
  {
    if |s| < n then s else s[|s| - n..]
  }

  /** Appending one element to a sequence appends it to its last `n` (for `n > 0`), and
      drops the oldest of them when there were already `n`. */
  lemma LastNPush<T>(s: seq<T>, p: T, n: nat)
    requires n > 0
    ensures LastN(s + [p], n) == (if |LastN(s, n)| == n then LastN(s, n)[1..] else LastN(s, n)) + [p]
  {
    var before := LastN(s, n);
    var after := LastN(s + [p], n);
    var expected := (if |before| == n then before[1..] else before) + [p];
    assert |after| == |expected|;
    forall i | 0 <= i < |after|
      ensures after[i] == expected[i]
    {
      if i < |after| - 1 {
        assert after[i] == (s + [p])[|s| + 1 - |after| + i];
      }
    }
  }

  /** `cursorTrail`: the points of the last accepted mouse moves, oldest first. */
  class CursorTrail {
    var points: seq<Point>
    /** Every accepted mouse move so far. */
    ghost var accepted: seq<Point>

    ghost predicate Valid()
      reads this
    {
      points == LastN(accepted, TrailLength)
    }

    constructor()
      ensures Valid() && points == [] && accepted == []
    {
      points := [];
      accepted := [];
    }

    /** A `mousemove`: on a wide window the point is pushed, and the oldest one goes when
        there are more than ten; on a narrow one nothing happens. */
    method OnMouseMove(innerWidth: int, x: int, y: int, now: int)
      requires Valid()
      modifies this
      ensures Valid()
      ensures |points| <= TrailLength
      ensures innerWidth <= WideScreen ==> points == old(points) && accepted == old(accepted)
      ensures innerWidth > WideScreen ==>
                && accepted == old(accepted) + [Point(x, y, now)]
                && points[|points| - 1] == Point(x, y, now)
                && points == (if |old(points)| == TrailLength then old(points)[1..] else old(points)) + [Point(x, y, now)]
    {
      if innerWidth > WideScreen {
        var p := Point(x, y, now);
        LastNPush(accepted, p, TrailLength);
        points := points + [p];
        accepted := accepted + [p];
        if |points| > TrailLength {
          points := points[1..];
        }
      }
    }
  }

  // ---------------------------------------------------------------- mobile menu

  /** The `active` classes of the menu button and of the link list. */
  class MobileMenu {
    var toggleActive: bool
    var linksActive: bool

    /** The button and the list agree. */
    predicate InSync()
      reads this
    {
      toggleActive == linksActive
    }

    constructor()
      ensures !toggleActive && !linksActive && InSync()
    {
      toggleActive := false;
      linksActive := false;
    }

    /** A click on the menu button toggles both classes. */
    method Toggle()
      modifies this
      ensures toggleActive == !old(toggleActive) && linksActive == !old(linksActive)
      ensures old(InSync()) ==> InSync()
    {
      toggleActive := !toggleActive;
      linksActive := !linksActive;
    }

    /** A click on a menu link closes the menu. */
    method LinkClick()
      modifies this
      ensures !toggleActive && !linksActive && InSync()
    {
      toggleActive := false;
      linksActive := false;
    }
  }

  // ---------------------------------------------------------------- ripple

  /** A child of a button: a ripple span of some diameter, or other content. */
  datatype Child = Ripple(diameter: int) | Content

  function RippleCount(cs: seq<Child>): (n: nat)
    ensures n <= |cs|
  {
    if cs == [] then 0 else (if cs[0].Ripple? then 1 else 0) + RippleCount(cs[1..])
  }

  /** The children after `ripple.remove()` on the first ripple, if there is one. */
  function RemoveFirstRipple(cs: seq<Child>): seq<Child> {
    if cs == [] then []
    else if cs[0].Ripple? then cs[1..]
    else [cs[0]] + RemoveFirstRipple(cs[1..])
  }

  /** Removing the first ripple takes away exactly one ripple when there is one, and
      keeps every other child. */
  lemma {:induction false} RemoveFirstRippleCount(cs: seq<Child>)
    ensures RippleCount(cs) > 0 ==> RippleCount(RemoveFirstRipple(cs)) == RippleCount(cs) - 1
    ensures RippleCount(cs) == 0 ==> RemoveFirstRipple(cs) == cs
    ensures |RemoveFirstRipple(cs)| == if RippleCount(cs) > 0 then |cs| - 1 else |cs|
  {
    if cs != [] && !cs[0].Ripple? {
      RemoveFirstRippleCount(cs[1..]);
      assert [cs[0]] + RemoveFirstRipple(cs[1..]) == RemoveFirstRipple(cs);
      RippleCountAppend([cs[0]], RemoveFirstRipple(cs[1..]));
    }
  }

  lemma {:induction false} RippleCountAppend(a: seq<Child>, b: seq<Child>)
    ensures RippleCount(a + b) == RippleCount(a) + RippleCount(b)
    decreases |a|
  {
    if a == [] {
      assert a + b == b;
    } else {
      assert (a + b)[1..] == a[1..] + b;
      RippleCountAppend(a[1..], b);
    }
  }

  /** A button that receives ripples. */
  class RippleButton {
    var children: seq<Child>

    constructor(children: seq<Child>)
      ensures this.children == children
    {
      this.children := children;
    }

    /** `createRipple`: drops the first ripple and appends a new one as wide as the larger
        side of the button; a button with at most one ripple keeps exactly one. */
    method CreateRipple(clientWidth: int, clientHeight: int)
      modifies this
      ensures children == RemoveFirstRipple(old(children)) + [Ripple(if clientWidth >= clientHeight then clientWidth else clientHeight)]
      ensures RippleCount(children) == if RippleCount(old(children)) > 0 then RippleCount(old(children)) else 1
      ensures RippleCount(old(children)) <= 1 ==> RippleCount(children) == 1
    {
      var diameter := if clientWidth >= clientHeight then clientWidth else clientHeight;
      RemoveFirstRippleCount(children);
      RippleCountAppend(RemoveFirstRipple(children), [Ripple(diameter)]);
      children := RemoveFirstRipple(children) + [Ripple(diameter)];
    }
  }

  // ---------------------------------------------------------------- contact modal

  /** Where the keyboard focus is, as far as the modal moves it. */
  datatype Focus = Unmoved | FirstAction | ContactButton

  /** The contact modal's `aria-hidden` attribute, the body's `overflow` style and the focus. */
  class ContactModal {
    var ariaHidden: string
    var bodyOverflow: string
    var focus: Focus

    predicate IsOpen()
      reads this
    {
      ariaHidden == "false"
    }

    constructor(ariaHidden: string)
      ensures this.ariaHidden == ariaHidden && bodyOverflow == "" && focus == Unmoved
    {
      this.ariaHidden := ariaHidden;
      bodyOverflow := "";
      focus := Unmoved;
    }

    /** `openModal`: shows the modal, stops the page from scrolling and focuses the first
        action when the modal has one. */
    method Open(hasAction: bool)
      modifies this
      ensures IsOpen() && ariaHidden == "false" && bodyOverflow == "hidden"
      ensures focus == if hasAction then FirstAction else old(focus)
    {
      ariaHidden := "false";
      bodyOverflow := "hidden";
      if hasAction {
        focus := FirstAction;
      }
    }

    /** `closeModal`, for the overlay, the close button and the actions: hides the modal,
        lets the page scroll and gives the focus back to the contact button. */
    method Close()
      modifies this
      ensures !IsOpen() && ariaHidden == "true" && bodyOverflow == "" && focus == ContactButton
    {
      ariaHidden := "true";
      bodyOverflow := "";
      focus := ContactButton;
    }

    /** A key press: Escape closes an open modal; any other key, or Escape on a closed
        modal, changes nothing. */
    method KeyDown(key: string)
      modifies this
      ensures key == "Escape" && old(IsOpen()) ==> ariaHidden == "true" && bodyOverflow == "" && focus == ContactButton
      ensures !(key == "Escape" && old(IsOpen())) ==>
                ariaHidden == old(ariaHidden) && bodyOverflow == old(bodyOverflow) && focus == old(focus)
    {
      if key == "Escape" && ariaHidden == "false" {
        Close();
      }
    }
  }
}
