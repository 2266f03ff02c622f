/**
 * The learning modal's lifecycle: opening locks page scrolling, remembers the
 * focused element, focuses the dialog and starts listening for Escape;
 * closing runs the matching cleanup. The "view tracks" button forgets the
 * remembered element before closing, so focus is not given back.
 */
module Modal {
  import opened Types

  /** The elements that can hold focus: the page body, the dialog (standing
      for everything inside it), other HTML elements of the page, and
      focusable elements that are not HTML elements (such as SVG ones). */
  datatype Elem = Body | Dialog | Html(id: nat) | NonHtml(id: nat)

  /** `instanceof HTMLElement`. */
  predicate IsHtmlElement(e: Elem) {
    !e.NonHtml?
  }

  /** The overflow value that locks page scrolling. */
  const Hidden: string := "hidden"

  /** Where "view tracks" sends the reader once the modal is closed. */
  datatype Navigation = ScrollToTracks | SetHashToTracks

  /** Where focus is once the dialog has left the page and the remembered
      element has been focused. Focusing the body (which has no tabindex)
      does nothing, so only another remembered element takes focus;
      otherwise focus inside the removed dialog falls to the body and focus
      elsewhere stays where it is. */
  function FocusAfterClose(remembered: Option<Elem>, active: Elem): Elem {
    if remembered.Some? && remembered.value != Body then remembered.value
    else if active == Dialog then Body
    else active
  }

  class LearningModal {
    var isOpen: bool
    var bodyOverflow: string
    var savedOverflow: string
    var activeElement: Elem
    var lastFocused: Option<Elem>
    var escListener: bool

    /** The Escape listener and the scroll lock exist exactly while open; the
        dialog can hold focus only while it is rendered, that is while open;
        and the remembered element is an HTML element outside the dialog.
        Nothing traps focus inside the open dialog: Tab can move it to the
        page behind the overlay. */
    ghost predicate Valid()
      reads this
    {
      (escListener <==> isOpen)
      && (isOpen ==> bodyOverflow == Hidden)
      && (!isOpen ==> activeElement != Dialog)
      && (lastFocused.Some? ==> IsHtmlElement(lastFocused.value) && lastFocused.value != Dialog)
    }

    /** The modal starts closed, on a page with the given overflow and focus;
        the dialog is not rendered, so it is not the focused element. */
    constructor (overflow: string, focused: Elem)
      requires focused != Dialog
      ensures Valid()
      ensures !isOpen && !escListener && lastFocused == None
      ensures bodyOverflow == overflow && activeElement == focused
    {
      isOpen := false;
      bodyOverflow := overflow;
      savedOverflow := "";
      activeElement := focused;
      lastFocused := None;
      escListener := false;
    }

    /** Opening. Asking to open an open modal changes nothing. */
    method Open()
      requires Valid()
      modifies this
      ensures Valid() && isOpen && escListener
      ensures old(isOpen) ==> unchanged(this)
      ensures !old(isOpen) ==>
                && lastFocused == (if IsHtmlElement(old(activeElement)) then Some(old(activeElement)) else None)
                && savedOverflow == old(bodyOverflow)
                && bodyOverflow == Hidden
                && activeElement == Dialog
    {
      if !isOpen {
        lastFocused := if IsHtmlElement(activeElement) then Some(activeElement) else None;
        savedOverflow := bodyOverflow;
        bodyOverflow := Hidden;
        activeElement := Dialog;
        escListener := true;
        isOpen := true;
      }
    }

    /** Closing: removes the Escape listener, puts back the overflow saved at
        opening, and focuses the remembered element if there still is one.
        Focus that was inside the removed dialog falls back to the body first.
        Asking to close a closed modal changes nothing. */
    method Close()
      requires Valid()
      modifies this
      ensures Valid() && !isOpen && !escListener
      ensures !old(isOpen) ==> unchanged(this)
      ensures old(isOpen) ==>
                && bodyOverflow == old(savedOverflow)
                && savedOverflow == old(savedOverflow)
                && lastFocused == old(lastFocused)
                && activeElement == FocusAfterClose(old(lastFocused), old(activeElement))
    {
      if isOpen {
        if activeElement == Dialog {
          activeElement := Body;
        }
        bodyOverflow := savedOverflow;
        if lastFocused.Some? && lastFocused.value != Body {
          activeElement := lastFocused.value;
        }
        escListener := false;
        isOpen := false;
      }
    }

    /** Focus moves to `e` (a click or Tab): the dialog only while it is
        rendered, any other element at any time. Nothing else changes. */
    method FocusMoves(e: Elem)
      requires Valid()
      requires isOpen || e != Dialog
      modifies this
      ensures Valid() && activeElement == e
      ensures isOpen == old(isOpen) && escListener == old(escListener) && lastFocused == old(lastFocused)
      ensures bodyOverflow == old(bodyOverflow) && savedOverflow == old(savedOverflow)
    {
      activeElement := e;
    }

    /** An Escape key press: closes the modal through its listener, and does
        nothing at all while no listener is registered. */
    method Escape()
      requires Valid()
      modifies this
      ensures Valid() && !isOpen
      ensures !old(escListener) ==> unchanged(this)
      ensures old(escListener) ==>
                && bodyOverflow == old(savedOverflow)
                && lastFocused == old(lastFocused)
                && activeElement == FocusAfterClose(old(lastFocused), old(activeElement))
    {
      if escListener {
        Close();
      }
    }

    /** A click on the open overlay. Pressing the mouse moves focus first: on
        the backdrop, which cannot take focus, to the body; inside the dialog,
        to the focusable dialog container or a control within it. A click that
        landed on the backdrop itself then closes the modal. While closed no
        overlay is rendered, so nothing changes. */
    method ClickOverlay(onBackdrop: bool)
      requires Valid()
      modifies this
      ensures Valid()
      ensures onBackdrop ==> !isOpen && !escListener
      ensures !old(isOpen) ==> unchanged(this)
      ensures old(isOpen) && onBackdrop ==>
                && bodyOverflow == old(savedOverflow)
                && lastFocused == old(lastFocused)
                && activeElement == FocusAfterClose(old(lastFocused), Body)
      ensures old(isOpen) && !onBackdrop ==>
                && isOpen && escListener && activeElement == Dialog
                && bodyOverflow == old(bodyOverflow) && savedOverflow == old(savedOverflow)
                && lastFocused == old(lastFocused)
    {
      if isOpen {
        if onBackdrop {
          activeElement := Body;
          Close();
        } else {
          activeElement := Dialog;
        }
      }
    }

    /** "View tracks", a button of the open dialog: forgets the remembered
        element, closes, then scrolls to the tracks section when it exists and
        otherwise sets the location hash. Focus that was in the dialog falls
        to the body and is not given back. */
    method GoTracks(tracksExists: bool) returns (nav: Navigation)
      requires Valid() && isOpen
      modifies this
      ensures Valid() && !isOpen && !escListener && lastFocused == None
      ensures bodyOverflow == old(savedOverflow)
      ensures activeElement == (if old(activeElement) == Dialog then Body else old(activeElement))
      ensures nav == (if tracksExists then ScrollToTracks else SetHashToTracks)
    {
      lastFocused := None;
      Close();
      nav := if tracksExists then ScrollToTracks else SetHashToTracks;
    }
  }

  /** Open then close leaves the page as it was: the same overflow, no Escape
      listener, and focus back on the element focused before (when that is an
      HTML element; otherwise on the body). */
  method OpenThenClose(m: LearningModal)
    requires m.Valid() && !m.isOpen
    modifies m
    ensures m.Valid() && !m.isOpen && !m.escListener
    ensures m.bodyOverflow == old(m.bodyOverflow)
    ensures IsHtmlElement(old(m.activeElement)) ==> m.activeElement == old(m.activeElement)
    ensures !IsHtmlElement(old(m.activeElement)) ==> m.activeElement == Body
  {
    m.Open();
    m.Close();
  }

  /** Open then "view tracks" also restores the overflow, but leaves focus on
      the body rather than on the element focused before. */
  method OpenThenGoTracks(m: LearningModal, tracksExists: bool) returns (nav: Navigation)
    requires m.Valid() && !m.isOpen
    modifies m
    ensures m.Valid() && !m.isOpen && !m.escListener
    ensures m.bodyOverflow == old(m.bodyOverflow)
    ensures m.activeElement == Body
  {
    m.Open();
    nav := m.GoTracks(tracksExists);
  }

  /** Open, Tab away from the dialog to `e` on the page behind, then Escape:
      focus goes back to the element focused before opening when that is an
      HTML element other than the body, and otherwise stays on `e`. */
  method OpenThenFocusAwayThenEscape(m: LearningModal, e: Elem)
    requires m.Valid() && !m.isOpen && e != Dialog
    modifies m
    ensures m.Valid() && !m.isOpen && !m.escListener
    ensures m.bodyOverflow == old(m.bodyOverflow)
    ensures m.activeElement == (if IsHtmlElement(old(m.activeElement)) && old(m.activeElement) != Body
                                then old(m.activeElement) else e)
  {
    m.Open();
    m.FocusMoves(e);
    m.Escape();
  }

  /** Open, then Escape, restores the page like an explicit close; a second
      Escape finds no listener, so the page ends exactly as one close leaves
      it. */
  method OpenThenEscapeTwice(m: LearningModal)
    requires m.Valid() && !m.isOpen
    modifies m
    ensures m.Valid() && !m.isOpen && !m.escListener
    ensures m.bodyOverflow == old(m.bodyOverflow)
    ensures m.lastFocused == (if IsHtmlElement(old(m.activeElement)) then Some(old(m.activeElement)) else None)
    ensures IsHtmlElement(old(m.activeElement)) ==> m.activeElement == old(m.activeElement)
    ensures !IsHtmlElement(old(m.activeElement)) ==> m.activeElement == Body
  {
    m.Open();
    m.Escape();
    ghost var overflow, focus := m.bodyOverflow, m.activeElement;
    m.Escape();
    assert m.bodyOverflow == overflow && m.activeElement == focus;
  }
}
