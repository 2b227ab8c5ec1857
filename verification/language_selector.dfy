/** The language settings panel: a default language, a switch for
    multi-language support, and the set of supported language codes, which
    always keeps English. A toggle builds a new set from the current one. */
module LanguageSelector {

  const English: string := "en"

  /** The set after toggling `code`: a present code other than English is
      removed, an absent one is added, English once present stays, and no
      other code changes membership. */
  function Toggled(selected: set<string>, code: string): (r: set<string>)
    ensures forall x :: x != code ==> (x in r <==> x in selected)
    ensures code !in selected ==> code in r
    ensures code in selected && code != English ==> code !in r
    ensures code == English ==> English in r
  {
    if code in selected && code != English then selected - {code} else selected + {code}
  }

  /** The set after toggling each code in turn. */
  function ToggledAll(selected: set<string>, codes: seq<string>): set<string>
    decreases |codes|
  {
    if codes == [] then selected else ToggledAll(Toggled(selected, codes[0]), codes[1..])
  }

  class LanguageSettings {
    var defaultLanguage: string
    var multiLanguageEnabled: bool
    var selectedLanguages: set<string>

    /** English as default, multi-language on, only English selected. */
    constructor()
      ensures defaultLanguage == English && multiLanguageEnabled
      ensures selectedLanguages == {English}
    {
      defaultLanguage := English;
      multiLanguageEnabled := true;
      selectedLanguages := {English};
    }

    /** `handleLanguageToggle(code)`: a copy of the set is changed and then
        stored. */
    method HandleLanguageToggle(code: string)
      modifies this
      ensures selectedLanguages == Toggled(old(selectedLanguages), code)
      ensures defaultLanguage == old(defaultLanguage) && multiLanguageEnabled == old(multiLanguageEnabled)
    {
      var newSelected := selectedLanguages;
      if code in newSelected {
        if code != English {
          newSelected := newSelected - {code};
        }
      } else {
        newSelected := newSelected + {code};
      }
      selectedLanguages := newSelected;
    }
  }

  // ------------------------------------------------------------ properties

  /** A toggle never removes English. */
  lemma ToggleKeepsEnglish(selected: set<string>, code: string)
    requires English in selected
    ensures English in Toggled(selected, code)
  {
  }

  /** Toggling the same code twice restores the set, except for English
      toggled while absent, which is added and then kept. */
  lemma ToggleTwiceRestores(selected: set<string>, code: string)
    ensures Toggled(Toggled(selected, code), code) == selected <==> code != English || English in selected
  {
    if code == English && English !in selected {
      assert English in Toggled(Toggled(selected, code), code);
    }
  }

  /** However many toggles follow, a set holding English keeps it; in
      particular the initial `{English}` never loses it. */
  lemma {:induction false} TogglesKeepEnglish(selected: set<string>, codes: seq<string>)
    requires English in selected
    ensures English in ToggledAll(selected, codes)
    decreases |codes|
  {
    if codes != [] {
      ToggleKeepsEnglish(selected, codes[0]);
      TogglesKeepEnglish(Toggled(selected, codes[0]), codes[1..]);
    }
  }

  /** Every selected set reachable from the initial one holds English. */
  lemma ReachableSetsHoldEnglish(codes: seq<string>)
    ensures English in ToggledAll({English}, codes)
  {
    TogglesKeepEnglish({English}, codes);
  }
}
