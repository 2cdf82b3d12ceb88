/**
 * The part of Selenium's page model the scraper reads: an element tree, the
 * two locator kinds it uses (`By.CLASS_NAME`, `By.TAG_NAME`), element search
 * from an element (`find_element`, main.py:144-155) and from the whole
 * document (`driver.find_elements`, main.py:41).
 */
module Dom {
  import opened Wrappers

  /** One element as the browser reports it: its tag name, its class tokens,
      its attributes, its rendered text (`.text`) and its children in order. */
  datatype Element = Element(
    tag: string,
    classes: set<string>,
    attributes: map<string, string>,
    text: string,
    children: seq<Element>)

  datatype Locator = ByClassName(className: string) | ByTagName(tagName: string)

  predicate Matches(e: Element, loc: Locator) {
    match loc
    case ByClassName(c) => c in e.classes
    case ByTagName(t) => e.tag == t
  }

  /** Every element of the forest `es` and below it, in document order
      (each element before its descendants, siblings left to right). */
  function Descendants(es: seq<Element>): (r: seq<Element>)
    ensures forall i :: 0 <= i < |es| ==> es[i] in r
    decreases es
  {
    if es == [] then [] else [es[0]] + Descendants(es[0].children) + Descendants(es[1..])
  }

  /** The elements of `es` that `loc` matches, in the order of `es`. */
  function Filter(es: seq<Element>, loc: Locator): (r: seq<Element>)
    ensures |r| <= |es|
    ensures forall x :: x in r <==> x in es && Matches(x, loc)
  {
    if es == [] then []
    else if Matches(es[0], loc) then [es[0]] + Filter(es[1..], loc)
    else Filter(es[1..], loc)
  }

  /** The depth-first search `find_element` performs below the forest `es`:
      the first element matched, searching each element before its children
      and its children before its later siblings. */
  function FindFirst(es: seq<Element>, loc: Locator): (r: Option<Element>)
    ensures r.Some? ==> Matches(r.value, loc) && r.value in Descendants(es)
    decreases es
  {
    if es == [] then None
    else if Matches(es[0], loc) then Some(es[0])
    else
      match FindFirst(es[0].children, loc)
      case Some(x) => Some(x)
      case None => FindFirst(es[1..], loc)
  }

  /** `element.find_element(by, value)`: searches the element's descendants
      only; `None` stands for NoSuchElementException. */
  function FindElement(scope: Element, loc: Locator): Option<Element> {
    FindFirst(scope.children, loc)
  }

  /** `driver.find_elements(by, value)`: every element of the document that
      `loc` matches, the root included, in document order. */
  function FindElements(root: Element, loc: Locator): (r: seq<Element>)
    ensures forall x :: x in r <==> x in Descendants([root]) && Matches(x, loc)
    ensures r != [] <==> FindFirst([root], loc).Some?
    ensures r != [] ==> FindFirst([root], loc) == Some(r[0])
  {
    FindFirstIsFirstInDocumentOrder([root], loc);
    Filter(Descendants([root]), loc)
  }

  /** `get_attribute(name)`; an absent attribute gives Python's None, which the
      CSV export writes as an empty cell, so it is the empty string here. */
  function AttributeOf(e: Element, name: string): string {
    if name in e.attributes then e.attributes[name] else ""
  }

  // ---------------------------------------------------------------------------

  lemma {:induction false} FilterAppend(a: seq<Element>, b: seq<Element>, loc: Locator)
    ensures Filter(a + b, loc) == Filter(a, loc) + Filter(b, loc)
  {
    if a == [] {
      assert a + b == b;
    } else {
      assert (a + b)[0] == a[0] && (a + b)[1..] == a[1..] + b;
      FilterAppend(a[1..], b, loc);
      if Matches(a[0], loc) {
        assert Filter(a + b, loc) == [a[0]] + Filter(a[1..] + b, loc);
        assert Filter(a, loc) == [a[0]] + Filter(a[1..], loc);
      } else {
        assert Filter(a + b, loc) == Filter(a[1..] + b, loc);
        assert Filter(a, loc) == Filter(a[1..], loc);
      }
    }
  }

  /** The search `find_element` does returns the first of the elements that
      the same locator selects in document order, and nothing when none is. */
  lemma {:induction false} FindFirstIsFirstInDocumentOrder(es: seq<Element>, loc: Locator)
    ensures var all := Filter(Descendants(es), loc);
            FindFirst(es, loc) == if all == [] then None else Some(all[0])
    decreases es
  {
    if es != [] {
      var head, below, rest := es[0], Descendants(es[0].children), Descendants(es[1..]);
      assert Descendants(es) == [head] + below + rest;
      FilterAppend([head] + below, rest, loc);
      FilterAppend([head], below, loc);
      FindFirstIsFirstInDocumentOrder(es[0].children, loc);
      FindFirstIsFirstInDocumentOrder(es[1..], loc);
    }
  }

  /** `scope.find_element(loc)` is the first element of the document-order
      listing of the scope's descendants that `loc` matches. */
  lemma FindElementIsFirstMatch(scope: Element, loc: Locator)
    ensures FindElement(scope, loc).Some? <==> exists x :: x in Descendants(scope.children) && Matches(x, loc)
    ensures FindElement(scope, loc).Some? ==>
      FindElement(scope, loc).value == Filter(Descendants(scope.children), loc)[0]
  {
    FindFirstIsFirstInDocumentOrder(scope.children, loc);
    var all := Filter(Descendants(scope.children), loc);
    if exists x :: x in Descendants(scope.children) && Matches(x, loc) {
      var x :| x in Descendants(scope.children) && Matches(x, loc);
      assert x in all;
    }
  }
}
