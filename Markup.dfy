/** A parsed HTML document as the scraper sees it through BeautifulSoup: a tree of
    tags and text nodes, searched in document order. */
module Markup {
  import opened Common
  import opened Text

  /** A tag (name, class list, other attributes, children in document order) or a text node. */
  datatype Node =
    | Element(tag: string, classes: seq<string>, attrs: map<string, string>, children: seq<Node>)
    | TextNode(text: string)

  /** The filters of BeautifulSoup's find/find_all used by the scraper:
      a tag name, optionally a class (`class_=`) and one attribute value (`{'data-row': ...}`). */
  datatype Query = Query(tag: string, cls: Option<string>, attr: Option<(string, string)>)

  function ByTag(tag: string): Query { Query(tag, None, None) }
  function ByClass(tag: string, cls: string): Query { Query(tag, Some(cls), None) }
  function ByAttr(tag: string, name: string, value: string): Query { Query(tag, None, Some((name, value))) }

  predicate Matches(n: Node, q: Query) {
    n.Element? && n.tag == q.tag &&
    (q.cls.Some? ==> q.cls.value in n.classes) &&
    (q.attr.Some? ==> q.attr.value.0 in n.attrs && n.attrs[q.attr.value.0] == q.attr.value.1)
  }

  function Children(n: Node): seq<Node> {
    if n.Element? then n.children else []
  }

  /** All tags among `ns` and their descendants that match `q`, in document (pre-)order. */
  function FindAllIn(ns: seq<Node>, q: Query): (r: seq<Node>)
    ensures forall k :: 0 <= k < |r| ==> Matches(r[k], q)
    decreases ns
  {
    if ns == [] then []
    else
      var here := if ns[0].Element? then
                    (if Matches(ns[0], q) then [ns[0]] else []) + FindAllIn(ns[0].children, q)
                  else [];
      here + FindAllIn(ns[1..], q)
  }

  /** tag.find_all(q): matching descendants of `n`, in document order. */
  function FindAll(n: Node, q: Query): seq<Node> { FindAllIn(Children(n), q) }

  /** tag.find(q): the first matching descendant of `n`, if any. */
  function FindFirst(n: Node, q: Query): (r: Option<Node>)
    ensures r.Some? ==> Matches(r.value, q)
  {
    var all := FindAll(n, q);
    if all == [] then None else Some(all[0])
  }

  /** The texts of `ns` and of their descendants, each stripped, concatenated in document order. */
  function TextIn(ns: seq<Node>): string
    decreases ns
  {
    if ns == [] then ""
    else (if ns[0].TextNode? then Strip(ns[0].text) else TextIn(ns[0].children)) + TextIn(ns[1..])
  }

  /** tag.get_text(strip=True). */
  function GetText(n: Node): string {
    if n.TextNode? then Strip(n.text) else TextIn(n.children)
  }

  /** tag.get(name, default). */
  function AttrOr(n: Node, name: string, default: string): string {
    if n.Element? && name in n.attrs then n.attrs[name] else default
  }
}
