/**
 * GST headlines from the news feed: the outcome of fetching the feed and
 * the filter that keeps the item titles mentioning "gst", joined by "; ".
 */
module News {
  import opened Wrappers

  /** A decoded JSON value, as json() returns it (`JNull` is Python's None). */
  datatype Json =
    | JNull
    | JBool(b: bool)
    | JNum(n: real)
    | JStr(s: string)
    | JArr(elems: seq<Json>)
    | JObj(fields: map<string, Json>)

  const FETCH_FAILED := "Failed getting RSS feed"
  const PARSE_FAILED := "Failed parsing RSS feed"

  /** Python truthiness of a decoded value. */
  predicate Truthy(j: Json)
    ensures !Truthy(j) <==> j in {JNull, JBool(false), JNum(0.0), JStr(""), JArr([]), JObj(map[])}
  {
    match j
    case JNull => false
    case JBool(b) => b
    case JNum(n) => n != 0.0
    case JStr(s) => s != ""
    case JArr(elems) => elems != []
    case JObj(fields) => fields != map[]
  }

  /**
   * What the HTTP request and the decoding of its body produced: an
   * exception from either, no response object, or the decoded body.
   */
  datatype HttpOutcome = Raised | NoResponse | Body(json: Json)

  /** The feed, or the fixed fetch error that replaces whatever was raised. */
  function GetGstFeed(http: HttpOutcome): (r: Result<Json, string>)
    ensures r.Failure? <==> http.Raised?
    ensures r.Failure? ==> r.error == FETCH_FAILED
    ensures http.NoResponse? ==> r == Success(JNull)
    ensures http.Body? ==> r == Success(http.json)
  {
    match http
    case Raised => Failure(FETCH_FAILED)
    case NoResponse => Success(JNull)
    case Body(json) => Success(json)
  }

  // ----- matching "gst" ignoring case -----

  function LowerAscii(c: char): char
  {
    if 'A' <= c <= 'Z' then (c as int + 32) as char else c
  }

  /** The three characters at `i` spell "gst" in some mix of cases. */
  predicate IsGstAt(s: string, i: int)
    requires 0 <= i && i + 3 <= |s|
  {
    LowerAscii(s[i]) == 'g' && LowerAscii(s[i + 1]) == 's' && LowerAscii(s[i + 2]) == 't'
  }

  /** `s` contains "gst" as a substring, ignoring case. */
  ghost predicate MentionsGst(s: string)
  {
    exists i :: 0 <= i && i + 3 <= |s| && IsGstAt(s, i)
  }

  /** A left-to-right search for "gst", ignoring case. */
  function SearchGst(s: string): (found: bool)
    ensures found <==> MentionsGst(s)
    ensures found ==> |s| >= 3
    decreases |s|
  {
    if |s| < 3 then false
    else if IsGstAt(s, 0) then true
    else
      var rest := SearchGst(s[1..]);
      assert rest ==> MentionsGst(s) by {
        if rest {
          var i :| 0 <= i && i + 3 <= |s[1..]| && IsGstAt(s[1..], i);
          assert IsGstAt(s, i + 1);
        }
      }
      assert MentionsGst(s) ==> rest by {
        if MentionsGst(s) {
          var i :| 0 <= i && i + 3 <= |s| && IsGstAt(s, i);
          assert i != 0;
          assert IsGstAt(s[1..], i - 1);
        }
      }
      rest
  }

  // ----- the items of the feed and their titles -----

  /** The feed and its "channel" member are objects and the latter holds an "item" member. */
  predicate HasItemMember(rss: Json)
  {
    rss.JObj? && "channel" in rss.fields && rss.fields["channel"].JObj? && "item" in rss.fields["channel"].fields
  }

  function ItemMember(rss: Json): Json
    requires HasItemMember(rss)
  {
    rss.fields["channel"].fields["item"]
  }

  /**
   * The values the filter loop walks over, or None when reaching them
   * raises: the feed and its "channel" member must both be objects holding
   * the expected key, and the "item" member must be iterable. A non-empty
   * object or string is iterable, but its elements are strings, and
   * looking up "title" in a string raises on the first of them; an empty
   * one yields no element at all.
   */
  function FeedItems(rss: Json): (r: Option<seq<Json>>)
    ensures r.Some? <==>
      HasItemMember(rss) && (ItemMember(rss).JArr? || ItemMember(rss) in {JObj(map[]), JStr("")})
    ensures HasItemMember(rss) && ItemMember(rss).JArr? ==> r == Some(ItemMember(rss).elems)
    ensures HasItemMember(rss) && ItemMember(rss) in {JObj(map[]), JStr("")} ==> r == Some([])
  {
    if HasItemMember(rss) then
      match ItemMember(rss)
      case JArr(elems) => Some(elems)
      case JObj(fields) => if fields == map[] then Some([]) else None
      case JStr(s) => if s == "" then Some([]) else None
      case _ => None
    else None
  }

  /** The item is an object whose "title" member is a string, which the regular-expression search accepts. */
  predicate HasTitle(item: Json)
    ensures !item.JObj? ==> !HasTitle(item)
    ensures item.JObj? && "title" !in item.fields ==> !HasTitle(item)
    ensures item.JObj? && "title" in item.fields && !item.fields["title"].JStr? ==> !HasTitle(item)
    ensures item.JObj? && "title" in item.fields && item.fields["title"].JStr? ==> HasTitle(item)
  {
    item.JObj? && "title" in item.fields && item.fields["title"].JStr?
  }

  function TitleOf(item: Json): string
    requires HasTitle(item)
  {
    item.fields["title"].s
  }

  /** The titles mentioning "gst" in feed order, or None once an item has no string title. */
  function GstTitles(items: seq<Json>): Option<seq<string>>
  {
    if items == [] then Some([])
    else
      match GstTitles(items[..|items| - 1])
      case None => None
      case Some(titles) =>
        var item := items[|items| - 1];
        if !HasTitle(item) then None
        else if SearchGst(TitleOf(item)) then Some(titles + [TitleOf(item)])
        else Some(titles)
  }

  /** str.join: the parts with `sep` between consecutive ones. */
  function Join(parts: seq<string>, sep: string): string
  {
    if |parts| == 0 then ""
    else if |parts| == 1 then parts[0]
    else Join(parts[..|parts| - 1], sep) + sep + parts[|parts| - 1]
  }

  /** What get_gst_news returns for `rss`, or the message of the exception it raises. */
  function GstNews(rss: Json): (r: Result<string, string>)
    ensures rss.JNull? ==> r == Success("")
    ensures r.Failure? ==> r.error == PARSE_FAILED
    ensures r.Success? ==> rss.JNull? || FeedItems(rss).Some?
  {
    if rss.JNull? then Success("")
    else
      match FeedItems(rss)
      case None => Failure(PARSE_FAILED)
      case Some(items) =>
        match GstTitles(items)
        case None => Failure(PARSE_FAILED)
        case Some(titles) => Success(Join(titles, "; "))
  }

  /** Filters the feed's items, appending each GST title to a list that is joined at the end. */
  method GetGstNews(rss: Json) returns (r: Result<string, string>)
    ensures r == GstNews(rss)
  {
    var gstNews: seq<string> := [];
    if rss != JNull {
      var items := FeedItems(rss);
      if items.None? {
        return Failure(PARSE_FAILED);
      }
      var elems := items.value;
      for i := 0 to |elems|
        invariant GstTitles(elems[..i]) == Some(gstNews)
      {
        var item := elems[i];
        assert elems[..i + 1][..i] == elems[..i];
        if !HasTitle(item) {
          GstTitlesFailureSticks(elems, i + 1);
          return Failure(PARSE_FAILED);
        }
        if SearchGst(TitleOf(item)) {
          gstNews := gstNews + [TitleOf(item)];
        }
      }
      assert elems[..|elems|] == elems;
    }
    r := Success(Join(gstNews, "; "));
  }

  // ----- properties -----

  /** Once a prefix of the items fails to parse, so do all the items. */
  lemma {:induction false} GstTitlesFailureSticks(items: seq<Json>, n: int)
    requires 0 <= n <= |items|
    requires GstTitles(items[..n]) == None
    ensures GstTitles(items) == None
    decreases |items| - n
  {
    if n < |items| {
      assert items[..n + 1][..n] == items[..n];
      GstTitlesFailureSticks(items, n + 1);
    } else {
      assert items[..n] == items;
    }
  }

  /** The filter succeeds exactly when every item has a string title. */
  lemma {:induction false} GstTitlesSucceedsIffTitled(items: seq<Json>)
    ensures GstTitles(items).Some? <==> forall i :: 0 <= i < |items| ==> HasTitle(items[i])
  {
    if items != [] {
      var front := items[..|items| - 1];
      GstTitlesSucceedsIffTitled(front);
      if forall i :: 0 <= i < |items| ==> HasTitle(items[i]) {
        assert forall i :: 0 <= i < |front| ==> HasTitle(front[i]) by {
          forall i | 0 <= i < |front| ensures HasTitle(front[i]) {
            assert front[i] == items[i];
          }
        }
      } else {
        var i :| 0 <= i < |items| && !HasTitle(items[i]);
        if i < |items| - 1 {
          assert front[i] == items[i];
        }
      }
    }
  }

  /**
   * `titles` are the titles of `items` that mention "gst", in feed order:
   * `idx` lists, in increasing order, the positions of exactly the items
   * whose title mentions "gst", and `titles` holds their titles.
   */
  ghost predicate IsGstSelection(items: seq<Json>, titles: seq<string>, idx: seq<int>)
    requires forall i :: 0 <= i < |items| ==> HasTitle(items[i])
  {
    && |idx| == |titles|
    && (forall k :: 0 <= k < |idx| ==> 0 <= idx[k] < |items| && titles[k] == TitleOf(items[idx[k]]))
    && (forall k, l :: 0 <= k < l < |idx| ==> idx[k] < idx[l])
    && (forall i :: 0 <= i < |items| ==> (MentionsGst(TitleOf(items[i])) <==> i in idx))
  }

  /** The filter keeps exactly the titles that mention "gst", in their original order. */
  lemma {:induction false} GstTitlesSelectsMatches(items: seq<Json>) returns (idx: seq<int>)
    requires forall i :: 0 <= i < |items| ==> HasTitle(items[i])
    ensures GstTitles(items).Some?
    ensures IsGstSelection(items, GstTitles(items).value, idx)
  {
    if items == [] {
      idx := [];
    } else {
      var n := |items| - 1;
      var front := items[..n];
      assert forall i :: 0 <= i < |front| ==> front[i] == items[i];
      var idx0 := GstTitlesSelectsMatches(front);
      var titles0 := GstTitles(front).value;
      var item := items[n];
      if SearchGst(TitleOf(item)) {
        idx := idx0 + [n];
      } else {
        idx := idx0;
      }
      var titles := GstTitles(items).value;
      assert |idx| == |titles|;
      forall k | 0 <= k < |idx|
        ensures 0 <= idx[k] < |items| && titles[k] == TitleOf(items[idx[k]])
      {
        if k < |idx0| {
          assert idx[k] == idx0[k] && titles[k] == titles0[k];
        }
      }
      forall i | 0 <= i < |items|
        ensures MentionsGst(TitleOf(items[i])) <==> i in idx
      {
        if i < n {
          assert MentionsGst(TitleOf(front[i])) <==> i in idx0;
          assert n !in idx0;
        } else {
          assert n !in idx0;
        }
      }
    }
  }

  lemma {:induction false} JoinNonEmpty(parts: seq<string>, sep: string)
    requires parts != [] && parts[|parts| - 1] != ""
    ensures Join(parts, sep) != ""
  {
    if |parts| > 1 {
      assert |Join(parts, sep)| >= |parts[|parts| - 1]|;
    }
  }

  /**
   * get_gst_news fails, always with the fixed parse error, exactly when
   * the feed is not None and either the item list cannot be walked or
   * some item has no string title.
   */
  lemma GstNewsFailsIffMalformed(rss: Json)
    ensures GstNews(rss).Failure? ==> GstNews(rss).error == PARSE_FAILED
    ensures GstNews(rss).Failure? <==>
      && rss != JNull
      && (FeedItems(rss).None? || exists i :: 0 <= i < |FeedItems(rss).value| && !HasTitle(FeedItems(rss).value[i]))
  {
    if rss != JNull && FeedItems(rss).Some? {
      GstTitlesSucceedsIffTitled(FeedItems(rss).value);
    }
  }

  /**
   * On a well-formed feed, get_gst_news returns the titles that mention
   * "gst", in feed order, joined by "; ".
   */
  lemma GstNewsJoinsMatchingTitles(rss: Json) returns (titles: seq<string>, idx: seq<int>)
    requires FeedItems(rss).Some?
    requires forall i :: 0 <= i < |FeedItems(rss).value| ==> HasTitle(FeedItems(rss).value[i])
    ensures GstNews(rss) == Success(Join(titles, "; "))
    ensures IsGstSelection(FeedItems(rss).value, titles, idx)
  {
    idx := GstTitlesSelectsMatches(FeedItems(rss).value);
    titles := GstTitles(FeedItems(rss).value).value;
  }

  /** On a well-formed feed, the result is empty exactly when no title mentions "gst". */
  lemma GstNewsEmptyIffNoMatch(rss: Json)
    requires FeedItems(rss).Some?
    requires forall i :: 0 <= i < |FeedItems(rss).value| ==> HasTitle(FeedItems(rss).value[i])
    ensures GstNews(rss).Success?
    ensures GstNews(rss).value == "" <==>
      forall i :: 0 <= i < |FeedItems(rss).value| ==> !MentionsGst(TitleOf(FeedItems(rss).value[i]))
  {
    var items := FeedItems(rss).value;
    var titles, idx := GstNewsJoinsMatchingTitles(rss);
    if titles != [] {
      var k := |titles| - 1;
      assert MentionsGst(TitleOf(items[idx[k]]));
      assert titles[k] != "" by {
        assert SearchGst(titles[k]);
      }
      JoinNonEmpty(titles, "; ");
    } else if exists i :: 0 <= i < |items| && MentionsGst(TitleOf(items[i])) {
      var i :| 0 <= i < |items| && MentionsGst(TitleOf(items[i]));
      assert i in idx;
    }
  }

  // ----- feeds built from a list of headlines -----

  /** A feed whose item list holds one item per title, in order. */
  function FeedOf(titles: seq<string>): Json
  {
    JObj(map["channel" := JObj(map["item" := JArr(TitledItems(titles))])])
  }

  function TitledItems(titles: seq<string>): seq<Json>
  {
    seq(|titles|, k requires 0 <= k < |titles| => JObj(map["title" := JStr(titles[k])]))
  }

  ghost predicate NoneMentionGst(titles: seq<string>)
  {
    forall k :: 0 <= k < |titles| ==> !MentionsGst(titles[k])
  }

  /** The titles that mention "gst", in order. */
  function GstFilter(titles: seq<string>): seq<string>
  {
    if titles == [] then []
    else
      var last := titles[|titles| - 1];
      GstFilter(titles[..|titles| - 1]) + (if SearchGst(last) then [last] else [])
  }

  /** Walking the feed built from some titles keeps the titles that mention "gst". */
  lemma {:induction false} FeedOfWalksTitles(titles: seq<string>)
    ensures Truthy(FeedOf(titles))
    ensures FeedItems(FeedOf(titles)) == Some(TitledItems(titles))
    ensures GstTitles(TitledItems(titles)) == Some(GstFilter(titles))
    ensures GstNews(FeedOf(titles)) == Success(Join(GstFilter(titles), "; "))
  {
    assert "channel" in FeedOf(titles).fields;
    GstTitlesOfTitledItems(titles);
  }

  lemma {:induction false} GstTitlesOfTitledItems(titles: seq<string>)
    ensures GstTitles(TitledItems(titles)) == Some(GstFilter(titles))
  {
    if titles != [] {
      var n := |titles| - 1;
      var items := TitledItems(titles);
      assert |items| == n + 1 && items != [];
      assert items[..n] == TitledItems(titles[..n]);
      GstTitlesOfTitledItems(titles[..n]);
      assert GstTitles(items[..n]) == Some(GstFilter(titles[..n]));
      var item := items[n];
      assert item == JObj(map["title" := JStr(titles[n])]);
      assert HasTitle(item) && TitleOf(item) == titles[n];
      if !SearchGst(titles[n]) {
        assert GstFilter(titles[..n]) + [] == GstFilter(titles[..n]);
      }
    }
  }

  lemma {:induction false} GstFilterAppend(a: seq<string>, b: seq<string>)
    ensures GstFilter(a + b) == GstFilter(a) + GstFilter(b)
    decreases |b|
  {
    if b == [] {
      assert a + b == a;
    } else {
      var n := |b| - 1;
      assert (a + b)[..|a + b| - 1] == a + b[..n];
      GstFilterAppend(a, b[..n]);
    }
  }

  lemma {:induction false} GstFilterOfNone(titles: seq<string>)
    requires NoneMentionGst(titles)
    ensures GstFilter(titles) == []
  {
    if titles != [] {
      GstFilterOfNone(titles[..|titles| - 1]);
    }
  }

  lemma GstFilterOfOne(title: string)
    requires MentionsGst(title)
    ensures GstFilter([title]) == [title]
  {
    assert [title][..0] == [];
  }

  /** A None feed yields the empty string; an empty object raises the parse error. */
  lemma GstNewsOnNoneAndEmpty()
    ensures GstNews(JNull) == Success("")
    ensures GstNews(JObj(map[])) == Failure(PARSE_FAILED)
  {
  }
}
