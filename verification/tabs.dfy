/** `selectTab(which)`: the sale/rent tab pair and their two panels. Each of
    the four elements may be missing from the page (`?.` skips it). */
module Tabs {
  import opened Text

  /** A tab control: its `aria-selected` attribute, absent until first set. */
  datatype Tab = Tab(ariaSelected: Option<string>)

  /** A panel: whether it carries the `hidden` attribute. */
  datatype Panel = Panel(hidden: bool)

  datatype TabBar = TabBar(tabSale: Option<Tab>, tabRent: Option<Tab>, panelSale: Option<Panel>, panelRent: Option<Panel>)

  /** `String(b)`. */
  function BoolString(b: bool): string {
    if b then "true" else "false"
  }

  /** `tab?.setAttribute('aria-selected', String(selected))`. */
  function SetSelected(tab: Option<Tab>, selected: bool): Option<Tab> {
    match tab
    case None => None
    case Some(t) => Some(t.(ariaSelected := Some(BoolString(selected))))
  }

  /** `panel?.toggleAttribute('hidden', hidden)`. */
  function SetHidden(panel: Option<Panel>, hidden: bool): Option<Panel> {
    match panel
    case None => None
    case Some(p) => Some(p.(hidden := hidden))
  }

  /** `selectTab(which)`: `which === 'sale'` selects the sale tab; anything
      else selects the rent tab. No element appears or disappears. */
  function SelectTab(bar: TabBar, which: string): (r: TabBar)
    ensures r.tabSale.Some? == bar.tabSale.Some? && r.tabRent.Some? == bar.tabRent.Some?
    ensures r.panelSale.Some? == bar.panelSale.Some? && r.panelRent.Some? == bar.panelRent.Some?
  {
    var isSale := which == "sale";
    TabBar(
      SetSelected(bar.tabSale, isSale),
      SetSelected(bar.tabRent, !isSale),
      SetHidden(bar.panelSale, !isSale),
      SetHidden(bar.panelRent, isSale))
  }

  /** All four elements are on the page. */
  predicate Complete(bar: TabBar) {
    bar.tabSale.Some? && bar.tabRent.Some? && bar.panelSale.Some? && bar.panelRent.Some?
  }

  /** Exactly one of the two panels is shown. */
  predicate ExactlyOneVisible(bar: TabBar)
    requires Complete(bar)
  {
    bar.panelSale.value.hidden != bar.panelRent.value.hidden
  }

  /** One tab says `true` and the other `false`. */
  predicate AriaComplementary(bar: TabBar)
    requires Complete(bar)
  {
    || (bar.tabSale.value.ariaSelected == Some("true") && bar.tabRent.value.ariaSelected == Some("false"))
    || (bar.tabSale.value.ariaSelected == Some("false") && bar.tabRent.value.ariaSelected == Some("true"))
  }

  /** The state `selectTab` leaves behind is consistent: exactly one panel
      visible, the sale panel precisely when `which` is `sale`, and the
      selected tab is the one whose panel shows. */
  lemma SelectTabConsistent(bar: TabBar, which: string)
    requires Complete(bar)
    ensures var r := SelectTab(bar, which);
      && Complete(r)
      && ExactlyOneVisible(r)
      && AriaComplementary(r)
      && (!r.panelSale.value.hidden <==> which == "sale")
      && (r.tabSale.value.ariaSelected == Some("true") <==> !r.panelSale.value.hidden)
  {
  }

  /** Only the last selection matters; in particular selecting the same tab
      twice is the same as selecting it once. */
  lemma SelectTabLastWins(bar: TabBar, first: string, second: string)
    ensures SelectTab(SelectTab(bar, first), second) == SelectTab(bar, second)
    ensures SelectTab(SelectTab(bar, second), second) == SelectTab(bar, second)
  {
  }

  /** A click on one of the two tab controls. */
  datatype Click = SaleClick | RentClick

  function ClickTarget(c: Click): string {
    match c
    case SaleClick => "sale"
    case RentClick => "rent"
  }

  /** The effect of a run of clicks, in order. */
  function ApplyClicks(bar: TabBar, clicks: seq<Click>): TabBar
    decreases |clicks|
  {
    if clicks == [] then bar else ApplyClicks(SelectTab(bar, ClickTarget(clicks[0])), clicks[1..])
  }

  /** The page state after the initial `selectTab('sale')` and any run of
      clicks. */
  function AfterClicks(bar: TabBar, clicks: seq<Click>): TabBar {
    ApplyClicks(SelectTab(bar, "sale"), clicks)
  }

  /** Clicks keep the tab state consistent and leave the panel of the last
      click shown. */
  lemma {:induction false} ApplyClicksConsistent(bar: TabBar, clicks: seq<Click>)
    requires Complete(bar) && ExactlyOneVisible(bar)
    ensures var r := ApplyClicks(bar, clicks);
      && Complete(r)
      && ExactlyOneVisible(r)
      && (clicks != [] ==> AriaComplementary(r))
      && (clicks != [] ==> (!r.panelSale.value.hidden <==> clicks[|clicks| - 1] == SaleClick))
      && (clicks == [] ==> r == bar)
    decreases |clicks|
  {
    if clicks != [] {
      var next := SelectTab(bar, ClickTarget(clicks[0]));
      SelectTabConsistent(bar, ClickTarget(clicks[0]));
      ApplyClicksConsistent(next, clicks[1..]);
      if |clicks| > 1 {
        assert clicks[1..][|clicks[1..]| - 1] == clicks[|clicks| - 1];
      }
    }
  }

  /** After page load and any number of tab clicks exactly one panel is
      visible, the aria flags are complementary, and the panel shown is the
      sale panel unless the last click was on the rent tab. */
  lemma AfterClicksConsistent(bar: TabBar, clicks: seq<Click>)
    requires Complete(bar)
    ensures var r := AfterClicks(bar, clicks);
      && Complete(r)
      && ExactlyOneVisible(r)
      && AriaComplementary(r)
      && (!r.panelSale.value.hidden <==> (clicks == [] || clicks[|clicks| - 1] == SaleClick))
  {
    SelectTabConsistent(bar, "sale");
    ApplyClicksConsistent(SelectTab(bar, "sale"), clicks);
  }
}
