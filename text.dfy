/**
 * String helpers used to build the rule's error messages: JavaScript's
 * `Array.prototype.join`, double-quoting, and `joinItems`, which lists
 * names with an Oxford comma.
 */
module Text {

  /** `"${s}"`: the string between two double quotes. */
  function Quoted(s: string): (r: string)
    ensures |r| == |s| + 2
    ensures r[0] == '"' && r[|r| - 1] == '"' && r[1..|r| - 1] == s
  {
    "\"" + s + "\""
  }

  /** Every item double-quoted, in order. */
  function QuoteAll(items: seq<string>): (r: seq<string>)
    ensures |r| == |items|
    ensures forall i :: 0 <= i < |items| ==> r[i] == Quoted(items[i])
  {
    seq(|items|, i requires 0 <= i < |items| => Quoted(items[i]))
  }

  /**
   * `items.join(sep)`: the items with `sep` between neighbours; the empty
   * string for no items.
   */
  function Join(items: seq<string>, sep: string): string
  {
    if items == [] then ""
    else if |items| == 1 then items[0]
    else items[0] + sep + Join(items[1..], sep)
  }

  /** Quoting `a", "j` gives `a` and `j` each quoted, separated by `, `. */
  lemma QuoteAround(a: string, j: string)
    ensures Quoted(a + "\", \"" + j) == Quoted(a) + ", " + Quoted(j)
  {
    assert "\", \"" == "\"" + ", " + "\"";
  }

  /** Joining with the separator `", "` inside outer quotes quotes every item. */
  lemma {:induction false} QuotedJoin(items: seq<string>)
    requires items != []
    ensures Quoted(Join(items, "\", \"")) == Join(QuoteAll(items), ", ")
  {
    if |items| > 1 {
      var rest := items[1..];
      QuotedJoin(rest);
      assert QuoteAll(items)[1..] == QuoteAll(rest);
      QuoteAround(items[0], Join(rest, "\", \""));
    }
  }

  /**
   * `joinItems`: no items give the empty string, one item is quoted, two
   * are joined by ` and `, and longer lists separate all but the last by
   * `", "` and put `", and "` before the last.
   */
  function JoinItems(items: seq<string>): (r: string)
    ensures r == "" <==> items == []
    ensures |items| == 1 ==> r == Quoted(items[0])
    ensures |items| == 2 ==> r == Quoted(items[0]) + " and " + Quoted(items[1])
  {
    if |items| == 0 then ""
    else if |items| == 1 then Quoted(items[0])
    else if |items| == 2 then Quoted(items[0]) + " and " + Quoted(items[1])
    else "\"" + Join(items[..|items| - 1], "\", \"") + "\", and \"" + items[|items| - 1] + "\""
  }

  /**
   * For three or more items every item is quoted, all but the last are
   * separated by `, `, and `, and ` stands before the last.
   */
  lemma OxfordComma(items: seq<string>)
    requires |items| >= 3
    ensures JoinItems(items) == Join(QuoteAll(items[..|items| - 1]), ", ") + ", and " + Quoted(items[|items| - 1])
  {
    var init, last := items[..|items| - 1], items[|items| - 1];
    QuotedJoin(init);
    var j := Join(init, "\", \"");
    assert "\"" + j + "\", and \"" + last + "\"" == Quoted(j) + ", and " + Quoted(last);
  }

  /** With the Oxford comma, two items are joined by a bare ` and `, more by `, and `. */
  lemma OxfordCommaGrowth(items: seq<string>, extra: string)
    requires |items| == 2
    ensures JoinItems(items + [extra]) == Quoted(items[0]) + ", " + Quoted(items[1]) + ", and " + Quoted(extra)
  {
    var all := items + [extra];
    OxfordComma(all);
    assert all[..2] == items;
    assert QuoteAll(items)[1..] == [Quoted(items[1])];
  }
}
