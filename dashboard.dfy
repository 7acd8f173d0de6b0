/**
 * The dashboard (src/pages/Dashboard.tsx): the saved-code record, the search filter
 * over the saved list, the badge colour of each type and the empty-result notice.
 */
module Dashboard {
  import opened JsStrings

  /** A saved code; `kind` is the source's `type` field. */
  datatype SavedQRCode = SavedQRCode(
    id: string, kind: string, title: string, content: string,
    createdAt: string, scans: int, isActive: bool)

  /** The search test: the lower-cased title or content contains the lower-cased query. */
  predicate Matches(query: string, qr: SavedQRCode) {
    Includes(ToLower(qr.title), ToLower(query)) || Includes(ToLower(qr.content), ToLower(query))
  }

  /** `savedQRCodes.filter(qr => …)`. */
  function FilterQRCodes(items: seq<SavedQRCode>, query: string): seq<SavedQRCode>
    decreases |items|
  {
    if items == [] then []
    else (if Matches(query, items[0]) then [items[0]] else []) + FilterQRCodes(items[1..], query)
  }

  /** `a` is `b` with some elements left out, the rest in their order. */
  predicate IsSubsequence(a: seq<SavedQRCode>, b: seq<SavedQRCode>)
    decreases |b|
  {
    if a == [] then true
    else if b == [] then false
    else (a[0] == b[0] && IsSubsequence(a[1..], b[1..])) || IsSubsequence(a, b[1..])
  }

  /** The filtered list keeps saved codes in their order, leaving some out. */
  lemma {:induction false} FilterIsSubsequence(items: seq<SavedQRCode>, query: string)
    ensures IsSubsequence(FilterQRCodes(items, query), items)
    ensures |FilterQRCodes(items, query)| <= |items|
    decreases |items|
  {
    if items != [] {
      FilterIsSubsequence(items[1..], query);
      var rest := FilterQRCodes(items[1..], query);
      if Matches(query, items[0]) {
        assert ([items[0]] + rest)[1..] == rest;
      } else {
        assert [] + rest == rest;
      }
    }
  }

  /** A saved code is listed exactly when it matches the query. */
  lemma {:induction false} FilterMembers(items: seq<SavedQRCode>, query: string, qr: SavedQRCode)
    ensures qr in FilterQRCodes(items, query) <==> qr in items && Matches(query, qr)
    decreases |items|
  {
    if items != [] {
      FilterMembers(items[1..], query, qr);
      assert items == [items[0]] + items[1..];
    }
  }

  /** The filter works item by item: it distributes over concatenation. */
  lemma {:induction false} FilterAppend(a: seq<SavedQRCode>, b: seq<SavedQRCode>, query: string)
    ensures FilterQRCodes(a + b, query) == FilterQRCodes(a, query) + FilterQRCodes(b, query)
    decreases |a|
  {
    if a == [] {
      assert a + b == b;
    } else {
      FilterAppend(a[1..], b, query);
      assert (a + b)[1..] == a[1..] + b;
    }
  }

  /** When every saved code matches, the filter keeps the whole list. */
  lemma {:induction false} FilterKeepsAll(items: seq<SavedQRCode>, query: string)
    requires forall i | 0 <= i < |items| :: Matches(query, items[i])
    ensures FilterQRCodes(items, query) == items
    decreases |items|
  {
    if items != [] {
      FilterKeepsAll(items[1..], query);
      assert items == [items[0]] + items[1..];
    }
  }

  /** An empty search shows every saved code. */
  lemma EmptyQueryKeepsAll(items: seq<SavedQRCode>)
    ensures FilterQRCodes(items, "") == items
  {
    forall i | 0 <= i < |items|
      ensures Matches("", items[i])
    {
      assert ToLower("") == "";
      assert "" <= ToLower(items[i].title);
    }
    FilterKeepsAll(items, "");
  }

  /** Two queries that lower-case alike select the same codes. */
  lemma {:induction false} SameLowerSameResult(items: seq<SavedQRCode>, q1: string, q2: string)
    requires ToLower(q1) == ToLower(q2)
    ensures FilterQRCodes(items, q1) == FilterQRCodes(items, q2)
    decreases |items|
  {
    if items != [] {
      SameLowerSameResult(items[1..], q1, q2);
    }
  }

  /** The search ignores case: a query, its upper-cased and its lower-cased form agree. */
  lemma FilterIgnoresCase(items: seq<SavedQRCode>, query: string)
    ensures FilterQRCodes(items, ToUpper(query)) == FilterQRCodes(items, query)
    ensures FilterQRCodes(items, ToLower(query)) == FilterQRCodes(items, query)
  {
    LowerOfUpper(query);
    SameLowerSameResult(items, ToUpper(query), query);
    assert ToLower(ToLower(query)) == ToLower(query) by {
      forall i | 0 <= i < |query|
        ensures LowerChar(LowerChar(query[i])) == LowerChar(query[i])
      {
      }
    }
    SameLowerSameResult(items, ToLower(query), query);
  }

  /** The "No QR codes found" block is shown under the list. */
  predicate ShowsEmptyState(items: seq<SavedQRCode>, query: string) {
    |FilterQRCodes(items, query)| == 0
  }

  /** The notice appears exactly when no saved code matches the query. */
  lemma EmptyStateIffNoMatch(items: seq<SavedQRCode>, query: string)
    ensures ShowsEmptyState(items, query) <==> forall i | 0 <= i < |items| :: !Matches(query, items[i])
  {
    if !ShowsEmptyState(items, query) {
      var qr := FilterQRCodes(items, query)[0];
      FilterMembers(items, query, qr);
    } else {
      forall i | 0 <= i < |items|
        ensures !Matches(query, items[i])
      {
        FilterMembers(items, query, items[i]);
      }
    }
  }

  const UrlBadge: string := "bg-blue-100 text-blue-700 dark:bg-blue-900/50 dark:text-blue-300"
  const VCardBadge: string := "bg-purple-100 text-purple-700 dark:bg-purple-900/50 dark:text-purple-300"
  const WifiBadge: string := "bg-orange-100 text-orange-700 dark:bg-orange-900/50 dark:text-orange-300"
  const DefaultBadge: string := "bg-gray-100 text-gray-700 dark:bg-gray-900/50 dark:text-gray-300"

  /** `getTypeColor`: the badge classes of a type. */
  function TypeColor(kind: string): string {
    match kind
    case "URL" => UrlBadge
    case "VCARD" => VCardBadge
    case "WIFI" => WifiBadge
    case _ => DefaultBadge
  }

  /**
   * The three known types get three different badges, none of them the gray one, and
   * every other type gets the gray badge.
   */
  lemma TypeColorClasses(kind: string)
    ensures TypeColor("URL") != TypeColor("VCARD") && TypeColor("URL") != TypeColor("WIFI") &&
            TypeColor("VCARD") != TypeColor("WIFI")
    ensures TypeColor(kind) == DefaultBadge <==> kind != "URL" && kind != "VCARD" && kind != "WIFI"
  {
  }
}
