/** The merchant's "commercial information" editor: a list of strengths, each a
    `{label, start, end}` window, that the merchant toggles on and off from the
    strengths of the chosen activity type, removes, and whose start and end
    hour or minute are picked from a menu; and the checks that gate saving it. */
module CommercialWindows {
  import opened JsText

  /** One strength with its time window; `name` is the app's `label`
      (a reserved word in Dafny). Times are "HH:MM" strings. */
  datatype Window = Window(name: string, start: string, end: string)

  datatype TimeField = Start | End
  datatype TimePart = Hour | Minute

  const DefaultStart := "09:00"
  const DefaultEnd := "12:00"
  /** What a template literal prints for a missing `split` part. */
  const Undefined := "undefined"

  // ---------------------------------------------------------------- labels

  predicate HasLabel(ws: seq<Window>, l: string)
  {
    exists i :: 0 <= i < |ws| && ws[i].name == l
  }

  predicate UniqueLabels(ws: seq<Window>)
  {
    forall i, j :: 0 <= i < j < |ws| ==> ws[i].name != ws[j].name
  }

  /** Every window has a non-empty start and end. */
  predicate TimesFilled(ws: seq<Window>)
  {
    forall i :: 0 <= i < |ws| ==> ws[i].start != "" && ws[i].end != ""
  }

  // ---------------------------------------------------------------- remove

  /** `prev.filter((w) => w.label !== l)`. */
  function WithoutLabel(ws: seq<Window>, l: string): (r: seq<Window>)
    ensures |r| <= |ws|
    ensures forall k :: 0 <= k < |r| ==> r[k].name != l && r[k] in ws
    ensures forall i :: 0 <= i < |ws| && ws[i].name != l ==> ws[i] in r
    ensures !HasLabel(ws, l) ==> r == ws
    ensures HasLabel(ws, l) ==> |r| < |ws|
  {
    if ws == [] then []
    else if ws[0].name == l then WithoutLabel(ws[1..], l)
    else [ws[0]] + WithoutLabel(ws[1..], l)
  }

  /** Removing a label that occurs once shortens the list by exactly one. */
  lemma {:induction false} WithoutLabelLength(ws: seq<Window>, l: string, k: nat)
    requires UniqueLabels(ws)
    requires k < |ws| && ws[k].name == l
    ensures |WithoutLabel(ws, l)| == |ws| - 1
  {
    if k == 0 {
      assert !HasLabel(ws[1..], l) by {
        forall i | 0 <= i < |ws[1..]| ensures ws[1..][i].name != l {
          assert ws[1..][i] == ws[i + 1];
        }
      }
    } else {
      WithoutLabelLength(ws[1..], l, k - 1);
    }
  }

  /** Filtering keeps labels unique. */
  lemma {:induction false} WithoutLabelUnique(ws: seq<Window>, l: string)
    requires UniqueLabels(ws)
    ensures UniqueLabels(WithoutLabel(ws, l))
  {
    if ws != [] {
      var tail := ws[1..];
      assert UniqueLabels(tail);
      WithoutLabelUnique(tail, l);
      var rest := WithoutLabel(tail, l);
      if ws[0].name != l {
        assert !HasLabel(tail, ws[0].name);
        forall k | 0 <= k < |rest| ensures rest[k].name != ws[0].name {
          assert rest[k] in tail;
        }
        ConsUnique(ws[0], rest);
      }
    }
  }

  /** Putting a window in front of a list that does not hold its label keeps
      labels unique. */
  lemma ConsUnique(w: Window, ws: seq<Window>)
    requires UniqueLabels(ws)
    requires forall k :: 0 <= k < |ws| ==> ws[k].name != w.name
    ensures UniqueLabels([w] + ws)
  {
    var r := [w] + ws;
    forall i, j | 0 <= i < j < |r| ensures r[i].name != r[j].name {
      assert r[j] == ws[j - 1];
      if i > 0 {
        assert r[i] == ws[i - 1];
      }
    }
  }

  // ---------------------------------------------------------------- toggle

  /** Pressing strength `l` in the options sheet: when a window with that label
      exists every such window is removed, otherwise a new window with the default
      times 09:00-12:00 is appended. */
  function Toggled(ws: seq<Window>, l: string): (r: seq<Window>)
    ensures HasLabel(ws, l) ==> r == WithoutLabel(ws, l) && !HasLabel(r, l) && |r| < |ws|
    ensures !HasLabel(ws, l) ==> r == ws + [Window(l, DefaultStart, DefaultEnd)]
  {
    if HasLabel(ws, l) then WithoutLabel(ws, l) else ws + [Window(l, DefaultStart, DefaultEnd)]
  }

  /** Toggling a strength on and then off again restores the list. */
  lemma ToggleTwiceRestores(ws: seq<Window>, l: string)
    requires !HasLabel(ws, l)
    ensures Toggled(Toggled(ws, l), l) == ws
  {
    var w := Window(l, DefaultStart, DefaultEnd);
    WithoutLabelConcat(ws, [w], l);
    assert WithoutLabel([w], l) == [];
  }

  /** The filter works window by window: it distributes over concatenation, so
      the kept windows stay in their order and each appears as often as before. */
  lemma {:induction false} WithoutLabelConcat(a: seq<Window>, b: seq<Window>, l: string)
    ensures WithoutLabel(a + b, l) == WithoutLabel(a, l) + WithoutLabel(b, l)
  {
    if a == [] {
      assert a + b == b;
    } else {
      assert (a + b)[1..] == a[1..] + b;
      WithoutLabelConcat(a[1..], b, l);
    }
  }

  /** Toggling keeps labels unique. */
  lemma ToggledUnique(ws: seq<Window>, l: string)
    ensures UniqueLabels(ws) ==> UniqueLabels(Toggled(ws, l))
  {
    if UniqueLabels(ws) && HasLabel(ws, l) {
      WithoutLabelUnique(ws, l);
    }
  }

  /** Windows added by toggling come with times; removal keeps the rest. */
  lemma ToggledTimesFilled(ws: seq<Window>, l: string)
    requires TimesFilled(ws)
    ensures TimesFilled(Toggled(ws, l))
  {
    if HasLabel(ws, l) {
      var r := WithoutLabel(ws, l);
      forall k | 0 <= k < |r| ensures r[k].start != "" && r[k].end != "" {
        var i :| 0 <= i < |ws| && ws[i] == r[k];
      }
    }
  }

  // ---------------------------------------------------------------- time edit

  /** Index of the first ':' in `s`, or `|s|` when there is none. */
  function FirstColon(s: string): (i: nat)
    ensures i <= |s|
    ensures forall j :: 0 <= j < i ==> s[j] != ':'
    ensures i < |s| ==> s[i] == ':'
  {
    if s == [] || s[0] == ':' then 0 else 1 + FirstColon(s[1..])
  }

  /** `const [h, m] = t.split(':')`: the text before the first colon, and the text
      between the first and the second colon (`undefined` when there is no colon). */
  function SplitTime(t: string): (string, string)
  {
    var i := FirstColon(t);
    if i == |t| then (t, Undefined)
    else
      var rest := t[i + 1..];
      (t[..i], rest[..FirstColon(rest)])
  }

  predicate NoColon(s: string)
  {
    forall j :: 0 <= j < |s| ==> s[j] != ':'
  }

  /** On a time written "h:m", the split gives back `h` and `m`. */
  lemma SplitTimeJoin(h: string, m: string)
    requires NoColon(h) && NoColon(m)
    ensures SplitTime(h + ":" + m) == (h, m)
  {
    var t := h + ":" + m;
    assert t[|h|] == ':';
    assert forall j :: 0 <= j < |h| ==> t[j] == h[j];
    assert FirstColon(t) == |h|;
    assert t[|h| + 1..] == m;
    assert t[..|h|] == h;
    assert FirstColon(m) == |m|;
    assert m[..|m|] == m;
  }

  /** The new time text after picking `opt` for one part of `t`. */
  function EditedTime(t: string, part: TimePart, opt: string): (r: string)
    ensures r != []
  {
    var (h, m) := SplitTime(t);
    (if part == Hour then opt else h) + ":" + (if part == Minute then opt else m)
  }

  /** Picking a value replaces that part and keeps the other one. */
  lemma EditedTimeReplacesPart(h: string, m: string, part: TimePart, opt: string)
    requires NoColon(h) && NoColon(m)
    ensures part == Hour ==> EditedTime(h + ":" + m, part, opt) == opt + ":" + m
    ensures part == Minute ==> EditedTime(h + ":" + m, part, opt) == h + ":" + opt
  {
    SplitTimeJoin(h, m);
  }

  function EditWindow(w: Window, l: string, field: TimeField, part: TimePart, opt: string): Window
  {
    if w.name != l then w
    else if field == Start then w.(start := EditedTime(w.start, part, opt))
    else w.(end := EditedTime(w.end, part, opt))
  }

  /** The option handler: every window labelled `l` gets the chosen part of the
      chosen field replaced; the list's length, order and labels do not change. */
  function Edited(ws: seq<Window>, l: string, field: TimeField, part: TimePart, opt: string): (r: seq<Window>)
    ensures |r| == |ws|
    ensures forall i :: 0 <= i < |ws| ==> r[i].name == ws[i].name
    ensures forall i :: 0 <= i < |ws| && ws[i].name != l ==> r[i] == ws[i]
    ensures forall i :: 0 <= i < |ws| && field == Start ==> r[i].end == ws[i].end
    ensures forall i :: 0 <= i < |ws| && field == End ==> r[i].start == ws[i].start
  {
    seq(|ws|, i requires 0 <= i < |ws| => EditWindow(ws[i], l, field, part, opt))
  }

  /** On a window labelled `l` whose chosen field reads "h:m", only the chosen part
      of that field changes. */
  lemma EditedWindowAt(ws: seq<Window>, l: string, field: TimeField, part: TimePart, opt: string,
                       i: nat, h: string, m: string)
    requires i < |ws| && ws[i].name == l
    requires NoColon(h) && NoColon(m)
    requires (if field == Start then ws[i].start else ws[i].end) == h + ":" + m
    ensures var t := if part == Hour then opt + ":" + m else h + ":" + opt;
            Edited(ws, l, field, part, opt)[i] ==
              if field == Start then ws[i].(start := t) else ws[i].(end := t)
  {
    EditedTimeReplacesPart(h, m, part, opt);
  }

  /** Editing a time never empties it. */
  lemma EditedTimesFilled(ws: seq<Window>, l: string, field: TimeField, part: TimePart, opt: string)
    requires TimesFilled(ws)
    ensures TimesFilled(Edited(ws, l, field, part, opt))
  {
  }

  // ---------------------------------------------------------------- save gate

  datatype SaveOutcome =
    | InvalidMerchantId
    | MissingActivityType
    | TooFewStrengths
    | MissingTimes
    | Save(activityType: string, windows: seq<Window>)

  /** `!commercialActivityType` is false: a type is set and not empty. */
  predicate ActivityChosen(activityType: Option<string>)
  {
    activityType.Some? && activityType.value != ""
  }

  /** The checks of the "Salva informazioni" button, in the app's order; the
      first one that fails decides the alert. `activityType` is `None` for null. */
  function CheckSave(merchantIdFinite: bool, activityType: Option<string>, ws: seq<Window>): (r: SaveOutcome)
    ensures r == InvalidMerchantId <==> !merchantIdFinite
    ensures r == MissingActivityType <==> merchantIdFinite && !ActivityChosen(activityType)
    ensures r == TooFewStrengths <==> merchantIdFinite && ActivityChosen(activityType) && |ws| < 3
    ensures r == MissingTimes <==> merchantIdFinite && ActivityChosen(activityType) && |ws| >= 3
                                   && !TimesFilled(ws)
    ensures r.Save? <==> merchantIdFinite && ActivityChosen(activityType) && |ws| >= 3 && TimesFilled(ws)
    ensures r.Save? ==> r == Save(activityType.value, ws)
  {
    if !merchantIdFinite then InvalidMerchantId
    else if activityType.None? || activityType.value == "" then MissingActivityType
    else if |ws| < 3 then TooFewStrengths
    else if exists i :: 0 <= i < |ws| && (ws[i].start == "" || ws[i].end == "") then MissingTimes
    else Save(activityType.value, ws)
  }

  /** Three distinct strengths toggled onto an empty list pass the gate as soon
      as an activity type is chosen. */
  lemma ThreeTogglesSave(a: string, b: string, c: string, t: string)
    requires a != b && b != c && a != c && t != ""
    ensures CheckSave(true, Some(t), Toggled(Toggled(Toggled([], a), b), c)).Save?
  {
    var w1 := Toggled([], a);
    assert !HasLabel(w1, b);
    var w2 := Toggled(w1, b);
    assert !HasLabel(w2, c);
  }

  // ---------------------------------------------------------------- the state

  /** The `commercialWindows` state and its setters. */
  class WindowList {
    var windows: seq<Window>

    constructor ()
      ensures windows == []
    {
      windows := [];
    }

    /** A strength pressed in the options sheet. */
    method ToggleStrength(l: string)
      modifies this
      ensures windows == Toggled(old(windows), l)
      ensures UniqueLabels(old(windows)) ==> UniqueLabels(windows)
    {
      ToggledUnique(windows, l);
      var selected := exists i :: 0 <= i < |windows| && windows[i].name == l;
      if selected {
        windows := WithoutLabel(windows, l);
      } else {
        windows := windows + [Window(l, DefaultStart, DefaultEnd)];
      }
    }

    /** The "Rimuovi" button of a row. */
    method Remove(l: string)
      modifies this
      ensures windows == WithoutLabel(old(windows), l)
      ensures !HasLabel(windows, l)
    {
      windows := WithoutLabel(windows, l);
    }

    /** An option picked from the open hour or minute menu of row `l`. */
    method EditTime(l: string, field: TimeField, part: TimePart, opt: string)
      modifies this
      ensures windows == Edited(old(windows), l, field, part, opt)
    {
      windows := Edited(windows, l, field, part, opt);
    }

    /** Choosing an activity type clears the strengths. */
    method Clear()
      modifies this
      ensures windows == []
    {
      windows := [];
    }

    /** After the demand is loaded the server's windows are adopted, but only when
        the list is still empty. */
    method AdoptServerWindows(server: seq<Window>)
      modifies this
      ensures windows == if old(windows) == [] && server != [] then server else old(windows)
    {
      if windows == [] && server != [] {
        windows := server;
      }
    }
  }
}
