/** The part of a browser tab the tool relies on: its URL, the cached DOM state
    that utils.py attaches to it, and its list of event handlers. */
module Tabs {
  import opened Wrappers
  import opened Dom

  /** The three protocol events the network watcher listens to. */
  datatype EventKind = RequestWillBeSent | ResponseReceived | LoadingFailed

  /** One registration `tab.add_handler(kind, handler)`; a handler is identified by
      the object whose closure it is. */
  datatype Subscription = Subscription(kind: EventKind, owner: object)

  class Tab {
    /** `getattr(tab, "url", None)`. */
    var url: Option<string>
    /** `tab.dom_tree_state`, absent until the first injection. */
    var domTreeState: Option<Snapshot>
    /** The registered handlers, with multiplicity. */
    var handlers: multiset<Subscription>

    constructor(url: Option<string>)
      ensures this.url == url && domTreeState.None? && handlers == multiset{}
    {
      this.url := url;
      domTreeState := None;
      handlers := multiset{};
    }

    /** `tab.add_handler(kind, handler)`. */
    method AddHandler(s: Subscription)
      modifies this
      ensures handlers == old(handlers) + multiset{s}
      ensures url == old(url) && domTreeState == old(domTreeState)
    {
      handlers := handlers + multiset{s};
    }

    /** `tab.remove_handlers(kind, handler)`: drops one registration of the handler. */
    method RemoveHandler(s: Subscription)
      modifies this
      ensures handlers == old(handlers) - multiset{s}
      ensures url == old(url) && domTreeState == old(domTreeState)
    {
      handlers := handlers - multiset{s};
    }

    /** utils.py `inject_interactivity`: builds the DOM from the page the in-page
        script returns (`page`) and replaces the cached `(root, map)` pair wholesale;
        when the build raises, the cache is left as it was. */
    method InjectInteractivity(page: EvalPage) returns (r: Result<SelectorMap, DomError>)
      modifies this
      ensures DomTreeOf(page).Success? ==>
                r == Success(DomTreeOf(page).value.selectorMap) && domTreeState == Some(DomTreeOf(page).value)
      ensures DomTreeOf(page).Failure? ==> r == Failure(DomTreeOf(page).error) && domTreeState == old(domTreeState)
      ensures url == old(url) && handlers == old(handlers)
    {
      var built := ConstructDomTree(page);
      if built.Failure? {
        return Failure(built.error);
      }
      domTreeState := Some(built.value);
      r := Success(built.value.selectorMap);
    }

    /** utils.py `get_interactive_dom_map`: the cached map when the tab has one
        (the page is then not looked at), otherwise a fresh injection. */
    method GetInteractiveDomMap(page: EvalPage) returns (r: Result<SelectorMap, DomError>)
      modifies this
      ensures old(domTreeState).Some? ==>
                r == Success(old(domTreeState).value.selectorMap) && domTreeState == old(domTreeState)
      ensures old(domTreeState).None? && DomTreeOf(page).Success? ==>
                r == Success(DomTreeOf(page).value.selectorMap) && domTreeState == Some(DomTreeOf(page).value)
      ensures old(domTreeState).None? && DomTreeOf(page).Failure? ==>
                r == Failure(DomTreeOf(page).error) && domTreeState == old(domTreeState)
      ensures url == old(url) && handlers == old(handlers)
    {
      if domTreeState.None? {
        r := InjectInteractivity(page);
        return;
      }
      r := Success(domTreeState.value.selectorMap);
    }
  }

  /** Once a tab holds a DOM state, asking for the map again returns the same map
      whatever the page now is: the cache is never refreshed by the getter. */
  method CachedMapIsStable(tab: Tab, first: EvalPage, second: EvalPage) returns (a: Result<SelectorMap, DomError>, b: Result<SelectorMap, DomError>)
    modifies tab
    ensures a.Success? ==> b == a
    ensures old(tab.domTreeState).None? && DomTreeOf(first).Success? ==> b == Success(DomTreeOf(first).value.selectorMap)
  {
    a := tab.GetInteractiveDomMap(first);
    b := tab.GetInteractiveDomMap(second);
  }
}
