/** The per-event presentation of the device history timeline: the colour
    classes and the icon of an event type, with a shared default for
    unknown types, and the title made from a `snake_case` event type. */
module DeviceHistory {
  import opened Text

  /** The event types the timeline knows. */
  const KnownEventTypes: seq<string> :=
    ["purchase", "maintenance", "incident", "software_update", "modification", "condition_assessment"]

  const DefaultColor: string := "bg-gray-50 border-gray-500"

  /** `getEventColor(type)`: the default colour exactly for the types the
      timeline does not know. */
  function EventColor(eventType: string): (color: string)
    ensures color == DefaultColor <==> eventType !in KnownEventTypes
  {
    match eventType
    case "purchase" => "bg-blue-50 border-blue-500"
    case "maintenance" => "bg-yellow-50 border-yellow-500"
    case "incident" => "bg-red-50 border-red-500"
    case "software_update" => "bg-green-50 border-green-500"
    case "modification" => "bg-purple-50 border-purple-500"
    case "condition_assessment" => "bg-indigo-50 border-indigo-500"
    case _ => DefaultColor
  }

  /** The icon shapes the timeline draws. */
  datatype Shape = Calendar | Settings | AlertTriangle | RefreshCw | Wrench | Activity | CheckCircle

  /** An icon as the shape and its text colour class. */
  datatype Icon = Icon(shape: Shape, colorClass: string)

  const DefaultIcon: Icon := Icon(CheckCircle, "text-gray-500")

  /** `getEventIcon(type)`, as a tag instead of a rendered element: the
      default icon exactly for the types the timeline does not know. */
  function EventIcon(eventType: string): (icon: Icon)
    ensures icon == DefaultIcon <==> eventType !in KnownEventTypes
  {
    match eventType
    case "purchase" => Icon(Calendar, "text-blue-500")
    case "maintenance" => Icon(Settings, "text-yellow-500")
    case "incident" => Icon(AlertTriangle, "text-red-500")
    case "software_update" => Icon(RefreshCw, "text-green-500")
    case "modification" => Icon(Wrench, "text-purple-500")
    case "condition_assessment" => Icon(Activity, "text-indigo-500")
    case _ => DefaultIcon
  }

  /** `word.charAt(0).toUpperCase() + word.slice(1)`. */
  function Capitalise(word: string): (r: string)
    ensures |r| == |word|
  {
    if word == [] then [] else [UpperChar(word[0])] + word[1..]
  }

  function CapitaliseAll(words: seq<string>): (r: seq<string>)
    ensures |r| == |words|
    ensures forall i :: 0 <= i < |words| ==> r[i] == Capitalise(words[i])
  {
    if words == [] then [] else [Capitalise(words[0])] + CapitaliseAll(words[1..])
  }

  /** The title of an event: the type split at '_', each piece capitalised,
      joined with spaces. It is the type with every '_' made a space and
      the first character of each piece capitalised. */
  function EventTitle(eventType: string): (title: string)
    ensures |title| == |eventType|
    ensures title == TitleChars(eventType, true)
  {
    var parts := Split(eventType, '_');
    TitleByPieces(eventType, true);
    assert CapitaliseAll(parts) == [Capitalise(parts[0])] + CapitaliseAll(parts[1..]);
    Join(CapitaliseAll(parts), " ")
  }

  /** The title built character by character: '_' becomes a space and the
      first character of each piece is capitalised. `atStart` says whether
      `s` begins a piece. */
  function TitleChars(s: string, atStart: bool): (r: string)
    ensures |r| == |s|
  {
    if s == [] then []
    else if s[0] == '_' then " " + TitleChars(s[1..], true)
    else [if atStart then UpperChar(s[0]) else s[0]] + TitleChars(s[1..], false)
  }

  /** What the title holds at position `i` of `s`. */
  function TitleCharAt(s: string, atStart: bool, i: nat): char
    requires i < |s|
  {
    if s[i] == '_' then ' '
    else if (i == 0 && atStart) || (i > 0 && s[i - 1] == '_') then UpperChar(s[i])
    else s[i]
  }

  // ------------------------------------------------------------ properties

  /** The six known types get six different colours, none of them the
      default. */
  lemma ColorsDistinct()
    ensures forall i, j :: 0 <= i < j < |KnownEventTypes|
              ==> EventColor(KnownEventTypes[i]) != EventColor(KnownEventTypes[j])
    ensures forall i :: 0 <= i < |KnownEventTypes| ==> EventColor(KnownEventTypes[i]) != DefaultColor
  {
  }

  /** Joining a list whose first piece starts with `c` starts with `c`. */
  lemma JoinConsFirst(c: char, q: string, rest: seq<string>, sep: string)
    ensures Join([[c] + q] + rest, sep) == [c] + Join([q] + rest, sep)
  {
    assert ([[c] + q] + rest)[1..] == rest;
    assert ([q] + rest)[1..] == rest;
  }

  /** The split-capitalise-join title equals the character-by-character
      one, where `atStart` says whether the first piece is capitalised. */
  lemma {:induction false} TitleByPieces(s: string, atStart: bool)
    ensures var parts := Split(s, '_');
      Join([if atStart then Capitalise(parts[0]) else parts[0]] + CapitaliseAll(parts[1..]), " ")
      == TitleChars(s, atStart)
  {
    var parts := Split(s, '_');
    if s != [] {
      var rest := Split(s[1..], '_');
      TitleByPieces(s[1..], true);
      TitleByPieces(s[1..], false);
      if s[0] == '_' {
        assert parts == [""] + rest;
        assert parts[1..] == rest;
        assert rest == [rest[0]] + rest[1..];
        assert CapitaliseAll(rest) == [Capitalise(rest[0])] + CapitaliseAll(rest[1..]);
        var first: string := if atStart then Capitalise(parts[0]) else parts[0];
        assert first == "";
        assert ([first] + CapitaliseAll(rest))[1..] == CapitaliseAll(rest);
      } else {
        assert parts == [[s[0]] + rest[0]] + rest[1..];
        var q: string := rest[0];
        var first: string := if atStart then Capitalise(parts[0]) else parts[0];
        assert first == [if atStart then UpperChar(s[0]) else s[0]] + q;
        JoinConsFirst(if atStart then UpperChar(s[0]) else s[0], q, CapitaliseAll(rest[1..]), " ");
      }
    }
  }

  /** The title replaces every '_' by a space, capitalises the character
      at the start of the type and after each '_', and keeps every other
      character. */
  lemma EventTitleChars(eventType: string)
    ensures forall i :: 0 <= i < |eventType| ==> EventTitle(eventType)[i] == TitleCharAt(eventType, true, i)
  {
    TitleCharsAt(eventType, true);
  }

  /** `TitleChars` position by position. */
  lemma {:induction false} TitleCharsAt(s: string, atStart: bool)
    ensures forall i :: 0 <= i < |s| ==> TitleChars(s, atStart)[i] == TitleCharAt(s, atStart, i)
  {
    if s != [] {
      TitleCharsAt(s[1..], s[0] == '_');
      forall i | 1 <= i < |s|
        ensures TitleChars(s, atStart)[i] == TitleCharAt(s, atStart, i)
      {
        assert TitleChars(s, atStart)[i] == TitleChars(s[1..], s[0] == '_')[i - 1];
        assert s[1..][i - 1] == s[i];
        if i > 1 {
          assert s[1..][i - 2] == s[i - 1];
        }
      }
    }
  }

  /** The title has no '_', is as long as the type, and has a space for
      every space and every '_' of the type. */
  lemma {:induction false} TitleCharsShape(s: string, atStart: bool)
    ensures '_' !in TitleChars(s, atStart)
    ensures Occurrences(TitleChars(s, atStart), ' ') == Occurrences(s, ' ') + Occurrences(s, '_')
  {
    if s != [] {
      TitleCharsShape(s[1..], s[0] == '_');
      var r := TitleChars(s, atStart);
      assert r[1..] == TitleChars(s[1..], s[0] == '_');
    }
  }

  /** The event title: same length as the type, no '_', and, for a type
      without spaces, one word more than the type has underscores. */
  lemma EventTitleShape(eventType: string)
    ensures |EventTitle(eventType)| == |eventType|
    ensures '_' !in EventTitle(eventType)
    ensures ' ' !in eventType ==> |Split(EventTitle(eventType), ' ')| == Occurrences(eventType, '_') + 1
  {
    EventTitleChars(eventType);
    TitleCharsShape(eventType, true);
    if ' ' !in eventType {
      NoOccurrences(eventType, ' ');
    }
  }

  /** A character that does not occur is counted zero times. */
  lemma {:induction false} NoOccurrences(s: string, c: char)
    requires c !in s
    ensures Occurrences(s, c) == 0
  {
    if s != [] {
      assert c !in s[1..];
      NoOccurrences(s[1..], c);
    }
  }
}
