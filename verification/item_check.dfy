/**
 * The 10-K item list and the item-content validator `check_10_k_item_content`
 * of the ingestion script.
 */
module ItemCheck {
  import opened Text

  /** The 23 canonical 10-K items, in the order the ingestion walks them. */
  const StandardItems: seq<string> := [
    "item_1", "item_1A", "item_1B", "item_1C", "item_2", "item_3", "item_4",
    "item_5", "item_6", "item_7", "item_7A", "item_8", "item_9", "item_9A",
    "item_9B", "item_9C", "item_10", "item_11", "item_12", "item_13",
    "item_14", "item_15", "item_16"
  ]

  /** Items whose content may not be empty. */
  const RequiredItems: seq<string> := [
    "item_1", "item_1A", "item_7", "item_8", "item_5", "item_9A",
    "item_10", "item_11", "item_12", "item_15"
  ]

  /** No canonical item is listed twice. */
  lemma StandardItemsDistinct()
    ensures Distinct(StandardItems)
  {
    forall i, j | 0 <= i < j < |StandardItems|
      ensures StandardItems[i] != StandardItems[j]
    {
    }
  }

  /** The whitespace the validator deletes everywhere: space, newline, tab, figure space. */
  predicate IsBlank(c: char) {
    c == ' ' || c == '\n' || c == '\t' || c == '\U{2007}'
  }

  /** Every space, newline, tab and figure space deleted. */
  function RemoveBlanks(t: string): string {
    RemoveAll(RemoveAll(RemoveAll(RemoveAll(t, " "), "\n"), "\t"), "\U{2007}")
  }

  /** The first `.`, the first `:` and the first `-` deleted, wherever each occurs. */
  function RemovePunctuation(u: string): string {
    RemoveFirst(RemoveFirst(RemoveFirst(u, '.'), ':'), '-')
  }

  /** The normalised content: lower-cased, blanks deleted, then the punctuation. */
  function CleanContent(content: string): string {
    RemovePunctuation(RemoveBlanks(Lower(content)))
  }

  /** The prefix the cleaned content must start with: the item name lower-cased, `_` removed. */
  function ItemKey(itemName: string): string {
    RemoveAll(Lower(itemName), "_")
  }

  /** `check_10_k_item_content(item_name, content)`. */
  predicate CheckItemContent(itemName: string, content: string) {
    && !(itemName in RequiredItems && content == "")
    && !(content != "" && !StartsWith(CleanContent(content), ItemKey(itemName)))
  }

  /** Empty content is accepted exactly for the items outside the required list. */
  lemma EmptyContentAcceptedIffOptional(itemName: string)
    ensures CheckItemContent(itemName, "") <==> itemName !in RequiredItems
  {
  }

  /** Non-empty content is accepted exactly when its cleaned form starts with the item key. */
  lemma NonEmptyContentAcceptedIffKeyPrefix(itemName: string, content: string)
    requires content != ""
    ensures CheckItemContent(itemName, content) <==> StartsWith(CleanContent(content), ItemKey(itemName))
  {
  }

  /** Every required item is one of the canonical items. */
  lemma RequiredAreStandard()
    ensures forall i :: 0 <= i < |RequiredItems| ==> RequiredItems[i] in StandardItems
  {
  }

  /** The four blanks are removed and nothing else is. */
  lemma RemoveBlanksCounts(t: string)
    ensures forall x :: multiset(RemoveBlanks(t))[x] == if IsBlank(x) then 0 else multiset(t)[x]
  {
    var u1 := RemoveAll(t, " ");
    var u2 := RemoveAll(u1, "\n");
    var u3 := RemoveAll(u2, "\t");
    RemoveAllChar(t, ' ');
    RemoveAllChar(u1, '\n');
    RemoveAllChar(u2, '\t');
    RemoveAllChar(u3, '\U{2007}');
  }

  predicate IsStripped(x: char) {
    x == '.' || x == ':' || x == '-'
  }

  /** One `.`, one `:` and one `-` go, where present; nothing else changes. */
  lemma RemovePunctuationCounts(u: string)
    ensures forall x :: multiset(RemovePunctuation(u))[x] ==
                        if IsStripped(x) && multiset(u)[x] > 0 then multiset(u)[x] - 1 else multiset(u)[x]
  {
    var v1 := RemoveFirst(u, '.');
    var v2 := RemoveFirst(v1, ':');
    var v3 := RemoveFirst(v2, '-');
    RemoveFirstCount(u, '.');
    RemoveFirstCount(v1, ':');
    RemoveFirstCount(v2, '-');
  }

  /**
   * What cleaning keeps, character by character: no blanks, one `.`, `:` and
   * `-` fewer than the lower-cased text when it has any, every other
   * character exactly as often as in the lower-cased text.
   */
  lemma CleanContentCounts(content: string)
    ensures forall x :: multiset(CleanContent(content))[x] ==
                        if IsBlank(x) then 0
                        else if IsStripped(x) && multiset(Lower(content))[x] > 0 then multiset(Lower(content))[x] - 1
                        else multiset(Lower(content))[x]
  {
    RemoveBlanksCounts(Lower(content));
    RemovePunctuationCounts(RemoveBlanks(Lower(content)));
  }

  /** The validator only ever looks at lower-case text. */
  lemma CleanContentIsLowerCase(content: string)
    ensures forall x :: IsUpper(x) ==> x !in CleanContent(content)
  {
    CleanContentCounts(content);
    forall x | IsUpper(x)
      ensures x !in CleanContent(content)
    {
      assert x !in Lower(content);
      assert multiset(CleanContent(content))[x] == 0;
    }
  }

  lemma RemoveBlanksIsFilter(t: string)
    ensures RemoveBlanks(t) == Without(Without(Without(Without(t, ' '), '\n'), '\t'), '\U{2007}')
  {
    RemoveAllCharIsWithout(t, ' ');
    RemoveAllCharIsWithout(Without(t, ' '), '\n');
    RemoveAllCharIsWithout(Without(Without(t, ' '), '\n'), '\t');
    RemoveAllCharIsWithout(Without(Without(Without(t, ' '), '\n'), '\t'), '\U{2007}');
  }

  lemma RemoveBlanksAppend(a: string, b: string)
    ensures RemoveBlanks(a + b) == RemoveBlanks(a) + RemoveBlanks(b)
  {
    RemoveBlanksIsFilter(a + b);
    RemoveBlanksIsFilter(a);
    RemoveBlanksIsFilter(b);
    var a1, b1 := Without(a, ' '), Without(b, ' ');
    var a2, b2 := Without(a1, '\n'), Without(b1, '\n');
    var a3, b3 := Without(a2, '\t'), Without(b2, '\t');
    WithoutAppend(a, b, ' ');
    WithoutAppend(a1, b1, '\n');
    WithoutAppend(a2, b2, '\t');
    WithoutAppend(a3, b3, '\U{2007}');
  }

  lemma RemovePunctuationOfExtension(a: string, b: string)
    ensures StartsWith(RemovePunctuation(a + b), RemovePunctuation(a))
  {
    var x1, a1 := RemoveFirst(a + b, '.'), RemoveFirst(a, '.');
    var x2, a2 := RemoveFirst(x1, ':'), RemoveFirst(a1, ':');
    assert StartsWith(a + b, a);
    RemoveFirstOfPrefix(a, a + b, '.');
    RemoveFirstOfPrefix(a1, x1, ':');
    RemoveFirstOfPrefix(a2, x2, '-');
  }

  lemma RemoveFirstOfPrefix(p: string, s: string, c: char)
    requires StartsWith(s, p)
    ensures StartsWith(RemoveFirst(s, c), RemoveFirst(p, c))
  {
    assert s == p + s[|p|..];
    RemoveFirstOfExtension(p, s[|p|..], c);
  }

  /**
   * Cleaning is monotone in the text: the cleaned form of a heading is a
   * prefix of the cleaned form of any content that starts with it, whatever
   * follows.
   */
  lemma CleanContentOfExtension(heading: string, rest: string)
    ensures StartsWith(CleanContent(heading + rest), CleanContent(heading))
  {
    LowerAppend(heading, rest);
    RemoveBlanksAppend(Lower(heading), Lower(rest));
    RemovePunctuationOfExtension(RemoveBlanks(Lower(heading)), RemoveBlanks(Lower(rest)));
  }

  predicate IsAlnum(c: char) {
    'a' <= c <= 'z' || 'A' <= c <= 'Z' || '0' <= c <= '9'
  }

  /** A heading token such as `1`, `1A` or `10`: ASCII letters and digits only. */
  predicate IsToken(s: string) {
    forall i :: 0 <= i < |s| ==> IsAlnum(s[i])
  }

  lemma LowerToken(k: string)
    requires IsToken(k)
    ensures IsToken(Lower(k))
  {
  }

  lemma LowerItemPrefix(k: string)
    ensures Lower("item_" + k) == "item_" + Lower(k)
  {
    LowerAppend("item_", k);
    assert Lower("item_") == "item_";
  }

  lemma LowerHeadingPrefix(k: string)
    ensures Lower("Item " + k) == "item " + Lower(k)
  {
    LowerAppend("Item ", k);
    assert Lower("Item ") == "item ";
  }

  /** `str.replace` leaves a token untouched when deleting anything but a letter or digit. */
  lemma TokenUntouched(t: string, c: char)
    requires IsToken(t) && !IsAlnum(c)
    ensures Without(t, c) == t && RemoveFirst(t, c) == t
  {
    WithoutAbsent(t, c);
  }

  /** The key of item `item_<k>` is `item<k>`, lower-cased. */
  lemma ItemKeyOfToken(k: string)
    requires IsToken(k)
    ensures ItemKey("item_" + k) == "item" + Lower(k)
  {
    LowerItemPrefix(k);
    LowerToken(k);
    RemoveAllCharIsWithout("item_" + Lower(k), '_');
    WithoutAppend("item_", Lower(k), '_');
    TokenUntouched(Lower(k), '_');
    assert Without("item_", '_') == "item";
  }

  /** A token has nothing for the cleaning to delete. */
  lemma TokenClean(t: string)
    requires IsToken(t)
    ensures RemoveBlanks(t) == t && RemovePunctuation(t) == t
  {
    RemoveBlanksIsFilter(t);
    TokenUntouched(t, ' ');
    TokenUntouched(t, '\n');
    TokenUntouched(t, '\t');
    TokenUntouched(t, '\U{2007}');
    TokenUntouched(t, '.');
    TokenUntouched(t, ':');
    TokenUntouched(t, '-');
  }

  lemma HeadingWordSqueezed()
    ensures RemoveBlanks("item ") == "item"
  {
    assert IsToken("item");
    TokenClean("item");
    RemoveBlanksIsFilter(" ");
    assert "item" + " " == "item ";
    RemoveBlanksAppend("item", " ");
  }

  lemma LoweredTokenClean(k: string)
    requires IsToken(k)
    ensures IsToken(Lower(k)) && RemoveBlanks(Lower(k)) == Lower(k)
  {
    LowerToken(k);
    TokenClean(Lower(k));
  }

  lemma HeadingSqueezed(k: string)
    requires IsToken(k)
    ensures RemoveBlanks(Lower("Item " + k)) == "item" + Lower(k)
  {
    LowerHeadingPrefix(k);
    HeadingWordSqueezed();
    LoweredTokenClean(k);
    RemoveBlanksAppend("item ", Lower(k));
  }

  lemma KeyedTokenClean(k: string)
    requires IsToken(k)
    ensures RemovePunctuation("item" + Lower(k)) == "item" + Lower(k)
  {
    LowerToken(k);
    assert IsToken("item");
    assert IsToken("item" + Lower(k));
    TokenClean("item" + Lower(k));
  }

  /** The heading `Item <k>` cleans to `item<k>`, lower-cased. */
  lemma CleanHeading(k: string)
    requires IsToken(k)
    ensures CleanContent("Item " + k) == "item" + Lower(k)
  {
    HeadingSqueezed(k);
    KeyedTokenClean(k);
  }

  lemma AcceptedByKey(itemName: string, content: string)
    requires content != "" && StartsWith(CleanContent(content), ItemKey(itemName))
    ensures CheckItemContent(itemName, content)
  {
  }

  lemma RejectedByKey(itemName: string, content: string)
    requires content != "" && !StartsWith(CleanContent(content), ItemKey(itemName))
    ensures !CheckItemContent(itemName, content)
  {
  }

  /** A longer heading token cleans to an extension of the shorter one's key. */
  lemma LongerTokenExtendsKey(k: string, h: string)
    requires IsToken(h) && StartsWith(h, k)
    ensures StartsWith("item" + Lower(h), "item" + Lower(k))
  {
    LowerOfExtension(h, k);
    StartsWithPrepend("item", Lower(h), Lower(k));
  }

  /**
   * Content that opens with the heading `Item <h>` is accepted for item
   * `item_<k>` whenever `<k>` is a prefix of `<h>`, whatever follows: so
   * "Item 1. Business" is accepted for `item_1`, and so is "Item 10. ...".
   */
  lemma HeadingAccepted(k: string, h: string, rest: string)
    requires IsToken(k) && IsToken(h) && StartsWith(h, k)
    ensures CheckItemContent("item_" + k, "Item " + h + rest)
  {
    var content := "Item " + h + rest;
    ItemKeyOfToken(k);
    CleanHeading(h);
    CleanContentOfExtension("Item " + h, rest);
    LongerTokenExtendsKey(k, h);
    StartsWithTrans(CleanContent(content), "item" + Lower(h), "item" + Lower(k));
    assert |content| > 0;
    AcceptedByKey("item_" + k, content);
  }

  lemma ItemPrefixCancels(a: string, p: string)
    requires StartsWith("item" + a, "item" + p)
    ensures StartsWith(a, p)
  {
    assert a[..|p|] == ("item" + a)[..|"item" + p|][4..];
  }

  /**
   * Content that opens with a heading `Item <h>`, where `<h>` is at least as
   * long as `<k>` and does not extend it (ignoring case), is rejected for
   * `item_<k>`.
   */
  lemma HeadingRejected(k: string, h: string, rest: string)
    requires IsToken(k) && IsToken(h) && |k| <= |h| && !StartsWith(Lower(h), Lower(k))
    ensures !CheckItemContent("item_" + k, "Item " + h + rest)
  {
    var content := "Item " + h + rest;
    var c := CleanContent(content);
    ItemKeyOfToken(k);
    CleanHeading(h);
    CleanContentOfExtension("Item " + h, rest);
    if StartsWith(c, "item" + Lower(k)) {
      CommonPrefix(c, "item" + Lower(h), "item" + Lower(k));
      ItemPrefixCancels(Lower(h), Lower(k));
      assert false;
    }
    assert |content| > 0;
    RejectedByKey("item_" + k, content);
  }
}
