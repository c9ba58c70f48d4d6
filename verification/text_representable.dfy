/**
 `textualDescription` of a collection of `TextRepresentable` elements: the
 elements' own descriptions, joined by commas and wrapped in square brackets.
 Each element is represented here by its description.
 */
module TextRepresentable {

  /** `joined(separator:)` on an array of strings. */
  function Join(items: seq<string>, sep: char): string
    decreases |items|
  {
    if |items| == 0 then ""
    else if |items| == 1 then items[0]
    else items[0] + [sep] + Join(items[1..], sep)
  }

  /** The collection's `textualDescription`. */
  function CollectionDescription(items: seq<string>): (r: string)
    ensures |r| >= 2 && r[0] == '[' && r[|r| - 1] == ']'
    ensures r[1..|r| - 1] == Join(items, ',')
  {
    "[" + Join(items, ',') + "]"
  }

  /** Cuts a string at every occurrence of `sep`. */
  function Split(s: string, sep: char): (parts: seq<string>)
    ensures |parts| >= 1
    decreases |s|
  {
    if |s| == 0 then [""]
    else
      var rest := Split(s[1..], sep);
      if s[0] == sep then [""] + rest
      else [[s[0]] + rest[0]] + rest[1..]
  }

  predicate NoSeparator(items: seq<string>, sep: char) {
    forall i :: 0 <= i < |items| ==> sep !in items[i]
  }

  lemma {:induction false} SplitWithoutSeparator(s: string, sep: char)
    requires sep !in s
    ensures Split(s, sep) == [s]
    decreases |s|
  {
    if |s| > 0 {
      SplitWithoutSeparator(s[1..], sep);
      assert [s[0]] + s[1..] == s;
    }
  }

  lemma {:induction false} SplitAtSeparator(x: string, sep: char, t: string)
    requires sep !in x
    ensures Split(x + [sep] + t, sep) == [x] + Split(t, sep)
    decreases |x|
  {
    var s := x + [sep] + t;
    if |x| == 0 {
      assert s == [sep] + t;
      assert s[1..] == t;
    } else {
      assert s[0] == x[0];
      assert s[1..] == x[1..] + [sep] + t;
      SplitAtSeparator(x[1..], sep, t);
      assert [x[0]] + x[1..] == x;
    }
  }

  /**
   When no element's description contains a comma, the bracketed text can be
   cut back into exactly the elements' descriptions: the description loses
   nothing and invents nothing.
   */
  lemma {:induction false} DescriptionRoundTrip(items: seq<string>)
    requires |items| >= 1 && NoSeparator(items, ',')
    ensures var r := CollectionDescription(items); Split(r[1..|r| - 1], ',') == items
    decreases |items|
  {
    JoinSplit(items, ',');
  }

  lemma {:induction false} JoinSplit(items: seq<string>, sep: char)
    requires |items| >= 1 && NoSeparator(items, sep)
    ensures Split(Join(items, sep), sep) == items
    decreases |items|
  {
    if |items| == 1 {
      SplitWithoutSeparator(items[0], sep);
    } else {
      JoinSplit(items[1..], sep);
      SplitAtSeparator(items[0], sep, Join(items[1..], sep));
      assert [items[0]] + items[1..] == items;
    }
  }
}
