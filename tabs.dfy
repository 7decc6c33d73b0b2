/** The dashboard's two tabs (switchTab in app.js): the theory tab and the
    real-data tab, each a panel with a class list and a button with a class
    name. */
module Tabs {
  const Hidden: string := "hidden"

  /** The class name of the selected theory button, of the selected real-data
      button, and of whichever button is not selected. */
  const TheoryButtonOn: string := "pb-4 px-6 font-bold border-b-2 border-yellow-400 text-yellow-400 whitespace-nowrap"
  const RealButtonOn: string := "pb-4 px-6 font-bold border-b-2 border-blue-400 text-blue-400 whitespace-nowrap"
  const ButtonOff: string := "pb-4 px-6 font-bold text-purple-300 whitespace-nowrap"

  /** The tab elements' state, and how many times the real-data analysis was
      refreshed by a tab switch. */
  datatype TabState = TabState(theoryClasses: set<string>, realClasses: set<string>,
                               theoryButton: string, realButton: string, realRefreshes: nat)

  predicate TheoryShown(st: TabState)
  {
    Hidden !in st.theoryClasses
  }

  predicate RealShown(st: TabState)
  {
    Hidden !in st.realClasses
  }

  /** switchTab(tab): "teorica" shows the theory panel and hides the other;
      any other name shows the real-data panel, hides the theory one and
      refreshes the analysis. The other classes of both panels stay. */
  function AfterSwitch(st: TabState, tab: string): (r: TabState)
    ensures tab == "teorica" ==>
              r.theoryClasses == st.theoryClasses - {Hidden} && r.realClasses == st.realClasses + {Hidden} &&
              r.theoryButton == TheoryButtonOn && r.realButton == ButtonOff && r.realRefreshes == st.realRefreshes
    ensures tab != "teorica" ==>
              r.theoryClasses == st.theoryClasses + {Hidden} && r.realClasses == st.realClasses - {Hidden} &&
              r.theoryButton == ButtonOff && r.realButton == RealButtonOn && r.realRefreshes == st.realRefreshes + 1
  {
    if tab == "teorica" then
      TabState(st.theoryClasses - {Hidden}, st.realClasses + {Hidden}, TheoryButtonOn, ButtonOff, st.realRefreshes)
    else
      TabState(st.theoryClasses + {Hidden}, st.realClasses - {Hidden}, ButtonOff, RealButtonOn, st.realRefreshes + 1)
  }

  /** After a switch exactly one panel is visible, the one asked for, and
      exactly the matching button is highlighted. */
  lemma SwitchShowsOne(st: TabState, tab: string)
    ensures TheoryShown(AfterSwitch(st, tab)) <==> tab == "teorica"
    ensures RealShown(AfterSwitch(st, tab)) <==> tab != "teorica"
    ensures AfterSwitch(st, tab).theoryButton != ButtonOff <==> tab == "teorica"
    ensures AfterSwitch(st, tab).realButton != ButtonOff <==> tab != "teorica"
  {
    assert TheoryButtonOn != ButtonOff && RealButtonOn != ButtonOff by {
      assert |TheoryButtonOn| != |ButtonOff|;
      assert |RealButtonOn| != |ButtonOff|;
    }
  }

  /** Switching twice to the same tab leaves the panels and buttons as one
      switch does; only the real-data tab's refresh happens again. */
  lemma SwitchIdempotent(st: TabState, tab: string)
    ensures var once := AfterSwitch(st, tab);
            var twice := AfterSwitch(once, tab);
            twice.theoryClasses == once.theoryClasses && twice.realClasses == once.realClasses &&
            twice.theoryButton == once.theoryButton && twice.realButton == once.realButton &&
            twice.realRefreshes == (if tab == "teorica" then once.realRefreshes else once.realRefreshes + 1)
  {
    var once := AfterSwitch(st, tab);
    var twice := AfterSwitch(once, tab);
    if tab == "teorica" {
      assert twice.theoryClasses == st.theoryClasses - {Hidden} - {Hidden};
      assert st.theoryClasses - {Hidden} - {Hidden} == st.theoryClasses - {Hidden};
      assert st.realClasses + {Hidden} + {Hidden} == st.realClasses + {Hidden};
    } else {
      assert st.theoryClasses + {Hidden} + {Hidden} == st.theoryClasses + {Hidden};
      assert st.realClasses - {Hidden} - {Hidden} == st.realClasses - {Hidden};
    }
  }

  /** The tab elements of the page, updated in place. */
  class TabView {
    var theoryClasses: set<string>
    var realClasses: set<string>
    var theoryButton: string
    var realButton: string
    var realRefreshes: nat

    function State(): TabState
      reads this
    {
      TabState(theoryClasses, realClasses, theoryButton, realButton, realRefreshes)
    }

    constructor (theory: set<string>, realData: set<string>, theoryBtn: string, realBtn: string)
      ensures State() == TabState(theory, realData, theoryBtn, realBtn, 0)
    {
      theoryClasses := theory;
      realClasses := realData;
      theoryButton := theoryBtn;
      realButton := realBtn;
      realRefreshes := 0;
    }

    method SwitchTab(tab: string)
      modifies this
      ensures State() == AfterSwitch(old(State()), tab)
    {
      if tab == "teorica" {
        theoryClasses := theoryClasses - {Hidden};
        realClasses := realClasses + {Hidden};
        theoryButton := TheoryButtonOn;
        realButton := ButtonOff;
      } else {
        theoryClasses := theoryClasses + {Hidden};
        realClasses := realClasses - {Hidden};
        realButton := RealButtonOn;
        theoryButton := ButtonOff;
        realRefreshes := realRefreshes + 1;
      }
    }
  }
}
