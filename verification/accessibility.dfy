/** Keyboard shortcuts (accessibility.js): the keydown handler's key buffer and the icon
    descriptions given to icon-only buttons. The effects of a shortcut (opening the modal,
    moving focus, changing page) are named by `Action` and not carried out; the buffer's
    1000 ms timer is modelled by a deadline that passes once the clock reaches it. */
module Accessibility {
  import opened Text
  import opened Js

  /** What a shortcut asks the page to do. */
  datatype Action = ShowShortcuts | HandleEscape | Navigate(page: Page) | FocusSearch | ToggleFilters

  /** The pages a shortcut leads to. */
  datatype Page = Home | DashboardPage | SettingsPage | BudgetPage | AddSubscriptionPage

  /** The file each page is served from. */
  function Url(page: Page): string {
    match page
    case Home => "index.html"
    case DashboardPage => "dashboard.html"
    case SettingsPage => "settings.html"
    case BudgetPage => "budget.html"
    case AddSubscriptionPage => "add-subscription.html"
  }

  /** The element the key was pressed in: its tag name and whether it is contentEditable. */
  datatype Target = Target(tagName: string, isContentEditable: bool)

  /** The handler's closure state: the typed keys and when the pending timer empties them. */
  datatype Buffer = Buffer(keys: string, clearAt: Option<int>)

  const KeyTimeoutMs: int := 1000

  /** The single-key shortcuts, looked up by the key itself. */
  const General: map<string, Action> := map["?" := ShowShortcuts, "Escape" := HandleEscape]

  /** The key sequences, in declaration order; a space separates the keys. */
  const Navigation: seq<(string, Action)> := [
    ("g h", Navigate(Home)),
    ("g d", Navigate(DashboardPage)),
    ("g s", Navigate(SettingsPage)),
    ("g b", Navigate(BudgetPage))]

  /** The single-key actions, in declaration order. */
  const Actions: seq<(string, Action)> := [
    ("n", Navigate(AddSubscriptionPage)),
    ("/", FocusSearch),
    ("f", ToggleFilters)]

  /** isTyping: the key goes to a form field or editable content. */
  predicate IsTyping(t: Target) {
    t.tagName == "INPUT" || t.tagName == "TEXTAREA" || t.isContentEditable
  }

  /** What the buffer must end with for a navigation shortcut: the shortcut without its space. */
  function Combo(shortcut: string): string {
    RemoveFirst(shortcut, ' ')
  }

  /** The timer, if due by `now`, has emptied the buffer. */
  function Settle(b: Buffer, now: int): Buffer {
    if b.clearAt.Some? && b.clearAt.value <= now then Buffer("", None) else b
  }

  /** The navigation forEach: every shortcut the current buffer ends with fires and empties it.
      Since no combination is empty, only the first one that matches can fire. */
  function CheckNavigation(keys: string, rules: seq<(string, Action)>): (r: (string, seq<Action>))
    requires forall i :: 0 <= i < |rules| ==> |Combo(rules[i].0)| > 0
    ensures (forall i :: 0 <= i < |rules| ==> !EndsWith(keys, Combo(rules[i].0))) ==> r == (keys, [])
    ensures forall i :: (0 <= i < |rules| && EndsWith(keys, Combo(rules[i].0))
      && (forall j :: 0 <= j < i ==> !EndsWith(keys, Combo(rules[j].0)))) ==> r == ("", [rules[i].1])
    decreases |rules|
  {
    if |rules| == 0 then (keys, [])
    else if EndsWith(keys, Combo(rules[0].0)) then
      var rest := CheckNavigation("", rules[1..]);
      assert forall i :: 0 <= i < |rules[1..]| ==> !EndsWith("", Combo(rules[1..][i].0));
      assert rest == ("", []);
      assert [rules[0].1] + rest.1 == [rules[0].1];
      ("", [rules[0].1] + rest.1)
    else
      CheckNavigation(keys, rules[1..])
  }

  /** The actions forEach: a shortcut equal to the key fires and empties the buffer. */
  function CheckActions(keys: string, key: string, rules: seq<(string, Action)>): (r: (string, seq<Action>))
    requires forall i, j :: 0 <= i < j < |rules| ==> rules[i].0 != rules[j].0
    ensures (forall i :: 0 <= i < |rules| ==> rules[i].0 != key) ==> r == (keys, [])
    ensures forall i :: 0 <= i < |rules| && rules[i].0 == key ==> r == ("", [rules[i].1])
    decreases |rules|
  {
    if |rules| == 0 then (keys, [])
    else if rules[0].0 == key then
      var rest := CheckActions("", key, rules[1..]);
      assert forall i :: 0 <= i < |rules[1..]| ==> rules[1..][i].0 != key;
      assert rest == ("", []);
      assert [rules[0].1] + rest.1 == [rules[0].1];
      ("", [rules[0].1] + rest.1)
    else
      CheckActions(keys, key, rules[1..])
  }

  function Last(s: string): char
    requires |s| > 0
  {
    s[|s| - 1]
  }

  /** The shape of the two tables that makes at most one shortcut fire per key: no combination
      is empty and no two end in the same key, every action is one key that ends no
      combination, and no two actions share a key. */
  predicate WellFormedTables(nav: seq<(string, Action)>, actions: seq<(string, Action)>) {
    && (forall i :: 0 <= i < |nav| ==> |Combo(nav[i].0)| > 0)
    && (forall i, k :: 0 <= i < k < |nav| ==> Last(Combo(nav[i].0)) != Last(Combo(nav[k].0)))
    && (forall j :: 0 <= j < |actions| ==> |actions[j].0| == 1)
    && (forall i, j :: 0 <= i < |nav| && 0 <= j < |actions| ==> Last(Combo(nav[i].0)) != actions[j].0[0])
    && (forall j, m :: 0 <= j < m < |actions| ==> actions[j].0 != actions[m].0)
  }

  /** The combinations are "gh", "gd", "gs" and "gb". */
  lemma NavigationCombos()
    ensures Combo(Navigation[0].0) == "gh" && Combo(Navigation[1].0) == "gd"
    ensures Combo(Navigation[2].0) == "gs" && Combo(Navigation[3].0) == "gb"
  {
    assert Navigation[0].0 == "g h" && Navigation[1].0 == "g d";
    assert Navigation[2].0 == "g s" && Navigation[3].0 == "g b";
  }

  /** Each combination is two keys; the last ones are h, d, s and b in turn. */
  lemma ComboLastKeys()
    ensures forall i :: 0 <= i < |Navigation| ==> |Combo(Navigation[i].0)| == 2
    ensures forall i :: 0 <= i < |Navigation| ==> Last(Combo(Navigation[i].0)) == "hdsb"[i]
  {
    NavigationCombos();
  }

  /** The action keys are n, / and f in turn. */
  lemma ActionKeys()
    ensures |Actions| == 3
    ensures forall j :: 0 <= j < |Actions| ==> Actions[j].0 == ["n/f"[j]]
  {}

  /** The page's own tables have that shape. */
  lemma TablesWellFormed()
    ensures WellFormedTables(Navigation, Actions)
  {
    ComboLastKeys();
    ActionKeys();
    var lasts, keys := "hdsb", "n/f";
    assert forall i, k :: 0 <= i < k < |lasts| ==> lasts[i] != lasts[k];
    assert forall i, j :: 0 <= i < |lasts| && 0 <= j < |keys| ==> lasts[i] != keys[j];
    assert forall j, m :: 0 <= j < m < |keys| ==> keys[j] != keys[m];
  }

  lemma EndsWithLast(s: string, suffix: string)
    requires EndsWith(s, suffix) && |suffix| > 0
    ensures |s| > 0 && Last(s) == Last(suffix)
  {
    assert s[|s| - |suffix|..][|suffix| - 1] == s[|s| - 1];
  }

  /** A buffer ends with at most one combination. */
  lemma AtMostOneCombo(buffer: string, nav: seq<(string, Action)>, actions: seq<(string, Action)>)
    requires WellFormedTables(nav, actions)
    ensures forall i, k :: (0 <= i < k < |nav| && EndsWith(buffer, Combo(nav[i].0))) ==>
      !EndsWith(buffer, Combo(nav[k].0))
  {
    forall i, k | 0 <= i < k < |nav| && EndsWith(buffer, Combo(nav[i].0))
      ensures !EndsWith(buffer, Combo(nav[k].0))
    {
      EndsWithLast(buffer, Combo(nav[i].0));
      if EndsWith(buffer, Combo(nav[k].0)) {
        EndsWithLast(buffer, Combo(nav[k].0));
      }
    }
  }

  /** A buffer whose last key ends no combination it is long enough for ends with none. */
  lemma NoComboEndsIn(buffer: string, nav: seq<(string, Action)>)
    requires |buffer| > 0
    requires forall i :: 0 <= i < |nav| ==> |Combo(nav[i].0)| > 0
    requires forall i :: 0 <= i < |nav| ==> Last(Combo(nav[i].0)) != Last(buffer) || |buffer| < |Combo(nav[i].0)|
    ensures forall i :: 0 <= i < |nav| ==> !EndsWith(buffer, Combo(nav[i].0))
  {
    forall i | 0 <= i < |nav| && EndsWith(buffer, Combo(nav[i].0))
      ensures false
    {
      EndsWithLast(buffer, Combo(nav[i].0));
    }
  }

  /** The navigation check fires the one combination the buffer ends with, if any. */
  lemma NavigationFiresMatch(buffer: string, nav: seq<(string, Action)>, actions: seq<(string, Action)>)
    requires WellFormedTables(nav, actions)
    ensures forall i :: 0 <= i < |nav| && EndsWith(buffer, Combo(nav[i].0)) ==>
      CheckNavigation(buffer, nav) == ("", [nav[i].1])
  {
    AtMostOneCombo(buffer, nav, actions);
    forall i | 0 <= i < |nav| && EndsWith(buffer, Combo(nav[i].0))
      ensures CheckNavigation(buffer, nav) == ("", [nav[i].1])
    {
      assert forall j :: 0 <= j < i ==> !EndsWith(buffer, Combo(nav[j].0));
    }
  }

  /** A key past the single-key shortcuts: it is appended to the buffer, then the navigation
      shortcut the buffer now ends with, or else the action the key names, fires and empties
      the buffer. At most one shortcut fires. */
  function Press(keys: string, key: string, nav: seq<(string, Action)>, actions: seq<(string, Action)>)
    : (r: (string, seq<Action>))
    requires WellFormedTables(nav, actions)
    ensures var buffer := keys + key;
      && |r.1| <= 1
      && (r.1 == [] ==> r.0 == buffer)
      && (r.1 != [] ==> r.0 == "")
      && (forall i :: 0 <= i < |nav| && EndsWith(buffer, Combo(nav[i].0)) ==> r.1 == [nav[i].1])
      && (forall j :: 0 <= j < |actions| && actions[j].0 == key ==> r.1 == [actions[j].1])
      && (r.1 == [] <==>
        (forall i :: 0 <= i < |nav| ==> !EndsWith(buffer, Combo(nav[i].0)))
        && (forall j :: 0 <= j < |actions| ==> actions[j].0 != key))
  {
    var buffer := keys + key;
    var nav' := CheckNavigation(buffer, nav);
    var act := CheckActions(nav'.0, key, actions);
    if exists j :: 0 <= j < |actions| && actions[j].0 == key then
      var j :| 0 <= j < |actions| && actions[j].0 == key;
      assert buffer[|keys|..] == key;
      assert Last(buffer) == key[0];
      NoComboEndsIn(buffer, nav);
      assert nav' == (buffer, []);
      (act.0, nav'.1 + act.1)
    else
      assert act == (nav'.0, []);
      NavigationFiresMatch(buffer, nav, actions);
      assert nav'.1 + act.1 == nav'.1;
      (act.0, nav'.1 + act.1)
  }

  /** The keydown handler. Typing in a field changes nothing; '?' and 'Escape' fire at once and
      leave the buffer and its timer alone; any other key goes through `Press` with the page's
      tables and restarts the timer. */
  function KeyDown(b: Buffer, target: Target, key: string, now: int): (r: (Buffer, seq<Action>))
    ensures IsTyping(target) ==> r == (Settle(b, now), [])
    ensures !IsTyping(target) && key in General ==> r == (Settle(b, now), [General[key]])
    ensures !IsTyping(target) && key !in General ==>
      var buffer := Settle(b, now).keys + key;
      && r.0.clearAt == Some(now + KeyTimeoutMs)
      && |r.1| <= 1
      && (r.1 == [] ==> r.0.keys == buffer)
      && (r.1 != [] ==> r.0.keys == "")
      && (forall i :: 0 <= i < |Navigation| && EndsWith(buffer, Combo(Navigation[i].0)) ==>
        r.1 == [Navigation[i].1])
      && (forall j :: 0 <= j < |Actions| && Actions[j].0 == key ==> r.1 == [Actions[j].1])
      && (r.1 == [] <==>
        (forall i :: 0 <= i < |Navigation| ==> !EndsWith(buffer, Combo(Navigation[i].0)))
        && (forall j :: 0 <= j < |Actions| ==> Actions[j].0 != key))
  {
    var settled := Settle(b, now);
    if IsTyping(target) then (settled, [])
    else if key in General then (settled, [General[key]])
    else
      TablesWellFormed();
      var pressed := Press(settled.keys, key, Navigation, Actions);
      (Buffer(pressed.0, Some(now + KeyTimeoutMs)), pressed.1)
  }

  /** No navigation shortcut is left waiting in the buffer: it would have fired. */
  predicate NoPendingShortcut(b: Buffer) {
    forall i :: 0 <= i < |Navigation| ==> !EndsWith(b.keys, Combo(Navigation[i].0))
  }

  /** Every keydown keeps the buffer free of a completed combination. */
  lemma KeyDownKeepsNoPending(b: Buffer, target: Target, key: string, now: int)
    requires NoPendingShortcut(b)
    ensures NoPendingShortcut(KeyDown(b, target, key, now).0)
  {
    TablesWellFormed();
    var r := KeyDown(b, target, key, now);
    if !IsTyping(target) && key !in General && r.1 == [] {
      var buffer := Settle(b, now).keys + key;
      assert r.0.keys == buffer;
    } else {
      assert r.0.keys == "" || r.0.keys == b.keys;
    }
  }

  /** 'g' outside any field is only remembered: nothing fires and the timer restarts. */
  lemma PressG(b: Buffer, target: Target, now: int)
    requires !IsTyping(target)
    ensures KeyDown(b, target, "g", now) == (Buffer(Settle(b, now).keys + "g", Some(now + KeyTimeoutMs)), [])
  {
    ComboLastKeys();
    ActionKeys();
    var buffer := Settle(b, now).keys + "g";
    assert Last(buffer) == 'g';
    NoComboEndsIn(buffer, Navigation);
  }

  /** 'h' after a remembered 'g' whose timer has not run out goes home and empties the buffer. */
  lemma PressHAfterG(b: Buffer, target: Target, now: int)
    requires !IsTyping(target)
    requires |b.keys| > 0 && Last(b.keys) == 'g'
    requires b.clearAt.Some? && now < b.clearAt.value
    ensures KeyDown(b, target, "h", now) == (Buffer("", Some(now + KeyTimeoutMs)), [Navigate(Home)])
  {
    NavigationCombos();
    var buffer := b.keys + "h";
    assert Settle(b, now) == b;
    assert EndsWith(buffer, Combo(Navigation[0].0)) by {
      assert buffer[|buffer| - 2..] == "gh";
    }
  }

  /** 'g' then 'h' within a second, outside any field, goes home whatever came before. */
  lemma GoThenHome(b: Buffer, target: Target, t1: int, t2: int)
    requires !IsTyping(target)
    requires t1 <= t2 < t1 + KeyTimeoutMs
    ensures var first := KeyDown(b, target, "g", t1);
      && first.1 == []
      && KeyDown(first.0, target, "h", t2) == (Buffer("", Some(t2 + KeyTimeoutMs)), [Navigate(Home)])
  {
    PressG(b, target, t1);
    PressHAfterG(KeyDown(b, target, "g", t1).0, target, t2);
  }

  /** Once the timer has run out the earlier keys are gone: 'g', a pause of a second, then 'h'
      fires nothing. */
  lemma PauseForgetsKeys(b: Buffer, target: Target, t1: int, t2: int)
    requires !IsTyping(target)
    requires t1 + KeyTimeoutMs <= t2
    ensures KeyDown(KeyDown(b, target, "g", t1).0, target, "h", t2) == (Buffer("h", Some(t2 + KeyTimeoutMs)), [])
  {
    PressG(b, target, t1);
    PressHAfterPause(KeyDown(b, target, "g", t1).0, target, t2);
  }

  /** 'h' once the timer has run out starts a fresh buffer and fires nothing. */
  lemma PressHAfterPause(b: Buffer, target: Target, now: int)
    requires !IsTyping(target)
    requires b.clearAt.Some? && b.clearAt.value <= now
    ensures KeyDown(b, target, "h", now) == (Buffer("h", Some(now + KeyTimeoutMs)), [])
  {
    ComboLastKeys();
    ActionKeys();
    assert Settle(b, now).keys + "h" == "h";
    NoComboEndsIn("h", Navigation);
  }

  /** Keys typed into a field never reach the buffer. */
  lemma TypingIgnored(b: Buffer, key: string, now: int)
    requires b.clearAt.None?
    ensures KeyDown(b, Target("INPUT", false), key, now) == (b, [])
    ensures KeyDown(b, Target("TEXTAREA", false), key, now) == (b, [])
    ensures KeyDown(b, Target("DIV", true), key, now) == (b, [])
  {}

  // ---------------------------------------------------------------------------
  // getIconDescription
  // ---------------------------------------------------------------------------

  /** The icon classes and their labels, in declaration order. */
  const IconMap: seq<(string, string)> := [
    ("fa-plus", "Add"),
    ("fa-edit", "Edit"),
    ("fa-trash", "Delete"),
    ("fa-search", "Search"),
    ("fa-filter", "Filter"),
    ("fa-times", "Close"),
    ("fa-check", "Confirm")]

  const DefaultLabel: string := "Button"

  function FirstLabel(iconClass: string, entries: seq<(string, string)>): (r: string)
    ensures (forall i :: 0 <= i < |entries| ==> !Includes(iconClass, entries[i].0)) ==> r == DefaultLabel
    ensures forall i :: (0 <= i < |entries| && Includes(iconClass, entries[i].0)
      && (forall j :: 0 <= j < i ==> !Includes(iconClass, entries[j].0))) ==> r == entries[i].1
    decreases |entries|
  {
    if |entries| == 0 then DefaultLabel
    else if Includes(iconClass, entries[0].0) then entries[0].1
    else
      assert forall i :: 1 <= i < |entries| ==> entries[1..][i - 1] == entries[i];
      FirstLabel(iconClass, entries[1..])
  }

  /** getIconDescription: the label of the first icon whose name occurs in the class list,
      'Button' when none does. */
  function GetIconDescription(iconClass: string): (r: string)
    ensures (forall i :: 0 <= i < |IconMap| ==> !Includes(iconClass, IconMap[i].0)) <==> r == DefaultLabel
    ensures forall i :: (0 <= i < |IconMap| && Includes(iconClass, IconMap[i].0)
      && (forall j :: 0 <= j < i ==> !Includes(iconClass, IconMap[j].0))) ==> r == IconMap[i].1
  {
    var r := FirstLabel(iconClass, IconMap);
    LabelsAreNotDefault();
    assert (exists i :: 0 <= i < |IconMap| && Includes(iconClass, IconMap[i].0)) ==> r != DefaultLabel by {
      if exists i :: 0 <= i < |IconMap| && Includes(iconClass, IconMap[i].0) {
        var i := FirstIncluded(iconClass, IconMap);
      }
    }
    r
  }

  /** The first entry whose icon occurs in the class, given that one does. */
  lemma FirstIncluded(iconClass: string, entries: seq<(string, string)>) returns (i: nat)
    requires exists k :: 0 <= k < |entries| && Includes(iconClass, entries[k].0)
    ensures i < |entries| && Includes(iconClass, entries[i].0)
    ensures forall j :: 0 <= j < i ==> !Includes(iconClass, entries[j].0)
  {
    i := 0;
    while !Includes(iconClass, entries[i].0)
      invariant i < |entries|
      invariant forall j :: 0 <= j < i ==> !Includes(iconClass, entries[j].0)
      invariant exists k :: i <= k < |entries| && Includes(iconClass, entries[k].0)
      decreases |entries| - i
    {
      i := i + 1;
    }
  }

  /** An occurrence of a longer needle is an occurrence of its prefix. */
  lemma IncludesPrefix(hay: string, needle: string, prefix: string)
    requires StartsWith(needle, prefix) && Includes(hay, needle)
    ensures Includes(hay, prefix)
  {
    IncludesIffOccurrence(hay, needle);
    var i :| 0 <= i <= |hay| && StartsWith(hay[i..], needle);
    assert StartsWith(hay[i..], prefix);
    IncludesIffOccurrence(hay, prefix);
  }

  /** No entry's label is the default one. */
  lemma LabelsAreNotDefault()
    ensures forall i :: 0 <= i < |IconMap| ==> IconMap[i].1 != DefaultLabel
  {
    assert forall i :: 0 <= i < |IconMap| ==> IconMap[i].1[0] != 'B';
  }

  /** Every icon name in the map starts with "fa-". */
  lemma IconsAreFontAwesome()
    ensures forall i :: 0 <= i < |IconMap| ==> StartsWith(IconMap[i].0, "fa-")
  {
    assert forall i :: 0 <= i < |IconMap| ==> IconMap[i].0[..3] == "fa-";
  }

  /** Needles that all start with a prefix the haystack lacks all miss. */
  lemma NoPrefixNoMatch(hay: string, entries: seq<(string, string)>, prefix: string)
    requires forall i :: 0 <= i < |entries| ==> StartsWith(entries[i].0, prefix)
    requires !Includes(hay, prefix)
    ensures forall i :: 0 <= i < |entries| ==> !Includes(hay, entries[i].0)
  {
    forall i | 0 <= i < |entries| && Includes(hay, entries[i].0)
      ensures false
    {
      IncludesPrefix(hay, entries[i].0, prefix);
    }
  }

  /** Every icon name starts with "fa-", so a class without "fa-" is labelled 'Button'. */
  lemma NoFontAwesomeIsButton(iconClass: string)
    requires !Includes(iconClass, "fa-")
    ensures GetIconDescription(iconClass) == DefaultLabel
  {
    IconsAreFontAwesome();
    NoPrefixNoMatch(iconClass, IconMap, "fa-");
  }

  /** The order decides between two icons: an edit button that also carries a trash icon
      is labelled 'Edit'. */
  lemma EditBeforeTrash(iconClass: string)
    requires Includes(iconClass, "fa-edit") && !Includes(iconClass, "fa-plus")
    ensures GetIconDescription(iconClass) == "Edit"
  {
    assert IconMap[1] == ("fa-edit", "Edit");
  }
}
