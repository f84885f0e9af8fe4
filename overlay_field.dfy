/** OverlayField: a text field that shows a grey hint while it holds no
    input of its own. The hint is kept in the underlying field's text, so
    getText hides it behind the showingHint flag. The team-number field is
    one of these, and its parsed value feeds the address resolver. */
module OverlayFields {
  import opened Common

  class OverlayField {
    const hint: string
    /** Whether the field is displaying its hint rather than user text. */
    var showingHint: bool
    /** The text of the underlying Swing field (super.getText()). */
    var text: string

    /** A new field displays its hint and reads as empty. */
    constructor (hint: string, col: int)
      ensures this.hint == hint && showingHint && text == hint
      ensures GetText() == ""
    {
      this.hint := hint;
      text := hint;
      showingHint := true;
    }

    /** getText(): the user's text, or "" while the hint is displayed. It is
        never null. */
    function GetText(): (r: string)
      reads this
      ensures showingHint ==> r == ""
      ensures !showingHint ==> r == text
    {
      if showingHint then "" else text
    }

    /** setText(t); None is a null argument, which empties the Swing field. */
    method SetText(t: Option<string>)
      modifies this
      ensures !showingHint
      ensures text == (if t.Some? then t.value else "")
      ensures GetText() == text
    {
      showingHint := false;
      text := if t.Some? then t.value else "";
    }

    /** reset(): display the hint again. */
    method Reset()
      modifies this
      ensures showingHint && text == hint
      ensures GetText() == ""
    {
      text := hint;
      showingHint := true;
    }

    /** focusGained: an empty field drops its hint to take input. */
    method FocusGained()
      modifies this
      ensures old(GetText()) == "" ==> !showingHint && text == ""
      ensures old(GetText()) != "" ==> showingHint == old(showingHint) && text == old(text)
      ensures GetText() == old(GetText())
    {
      if GetText() == "" {
        text := "";
        showingHint := false;
      }
    }

    /** focusLost: an empty field displays its hint again. */
    method FocusLost()
      modifies this
      ensures old(GetText()) == "" ==> showingHint && text == hint
      ensures old(GetText()) != "" ==> showingHint == old(showingHint) && text == old(text)
      ensures GetText() == old(GetText())
    {
      if GetText() == "" {
        text := hint;
        showingHint := true;
      }
    }

    /** checkedIntParse(defRtn): the integer the field reads as, or defRtn
        when Integer.parseInt would throw. */
    function CheckedIntParse(defRtn: int): (r: int)
      reads this
      ensures ParseInt(GetText()).Some? ==> r == ParseInt(GetText()).value
      ensures ParseInt(GetText()).None? ==> r == defRtn
      ensures r == defRtn || IsInt32(r)
    {
      ParseIntOr(GetText(), defRtn)
    }

    /** checkedIntParse(): the same with -1 as the default. */
    function CheckedIntParseOrMinusOne(): (r: int)
      reads this
      ensures showingHint ==> r == -1
      ensures ParseInt(GetText()).Some? ==> r == ParseInt(GetText()).value
      ensures ParseInt(GetText()).None? ==> r == -1
      ensures r == -1 || IsInt32(r)
    {
      CheckedIntParse(-1)
    }
  }

  /** A field that was given the decimal rendering of a 32-bit number reads
      back as that number, whatever default is supplied. */
  lemma CheckedIntParseAfterSetText(f: OverlayField, n: int, defRtn: int)
    requires IsInt32(n)
    requires !f.showingHint && f.text == IntToString(n)
    ensures f.CheckedIntParse(defRtn) == n
  {
    ParseIntToString(n);
  }
}
