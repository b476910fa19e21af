/**
 * The image finder (img_finder.py): picks the widest image a puzzle's page
 * offers, downloads it, reads its dimensions and format, and writes all of it
 * back onto the puzzle's stored entity.
 *
 * The network and the image decoder are parameters: `detailPage` gives the
 * `<source>` elements of the page at a URL, `download` the bytes at a URL, and
 * `decode` the metadata of an image, or None when the bytes are no image.
 */
module ImgFinder {
  import opened Wrappers
  import opened Text
  import opened KakurizerTypes
  import opened Datastore

  /** A `<source>` element of a puzzle page: its `sizes` and `srcset` attributes. */
  datatype Source = Source(sizes: Option<string>, srcset: Option<string>)

  const NO_IMAGE := "Cannot parse puzzle image"

  predicate AllSized(sources: seq<Source>) {
    forall i :: 0 <= i < |sources| ==> sources[i].sizes.Some?
  }

  /**
   * The position of the source `sorted(sources, key=sizes, reverse=True)` puts
   * first: a source with the greatest `sizes` text, the earliest one among equals
   * (the sort is stable).
   */
  function WidestSource(sources: seq<Source>): (k: nat)
    requires |sources| > 0 && AllSized(sources)
    ensures k < |sources|
    decreases |sources|
  {
    if |sources| == 1 then 0
    else
      var k := WidestSource(sources[..|sources| - 1]);
      if LexLess(sources[k].sizes.value, sources[|sources| - 1].sizes.value) then |sources| - 1 else k
  }

  /** The widest source's `sizes` is not below any other, and is strictly above every earlier one's. */
  lemma {:induction false} WidestSourceIsFirstMaximum(sources: seq<Source>)
    requires |sources| > 0 && AllSized(sources)
    ensures forall i :: 0 <= i < |sources| ==>
              !LexLess(sources[WidestSource(sources)].sizes.value, sources[i].sizes.value)
    ensures forall i :: 0 <= i < WidestSource(sources) ==>
              LexLess(sources[i].sizes.value, sources[WidestSource(sources)].sizes.value)
    decreases |sources|
  {
    if |sources| > 1 {
      var n := |sources| - 1;
      var prefix := sources[..n];
      WidestSourceIsFirstMaximum(prefix);
      var k := WidestSource(prefix);
      var top := sources[k].sizes.value;
      var last := sources[n].sizes.value;
      assert forall i :: 0 <= i < n ==> sources[i] == prefix[i];
      assert WidestSource(sources) == if LexLess(top, last) then n else k;
      if LexLess(top, last) {
        forall i | 0 <= i < n
          ensures LexLess(sources[i].sizes.value, last) && !LexLess(last, sources[i].sizes.value)
        {
          var s := sources[i].sizes.value;
          assert !LexLess(top, s) by { assert prefix[i] == sources[i]; }
          LexLessTotal(s, top);
          if s != top {
            LexLessTransitive(s, top, last);
          }
          if LexLess(last, s) {
            LexLessTransitive(s, last, s);
            LexLessIrreflexive(s);
          }
        }
        LexLessIrreflexive(last);
      } else {
        forall i | 0 <= i < |sources| ensures !LexLess(top, sources[i].sizes.value) {
          if i < n {
            assert sources[i] == prefix[i];
          }
        }
        forall i | 0 <= i < k ensures LexLess(sources[i].sizes.value, top) {
          assert sources[i] == prefix[i];
        }
      }
    } else {
      LexLessIrreflexive(sources[0].sizes.value);
    }
  }

  /** `str(entity['id'])`, for the values an id can hold. */
  function ValueText(v: Value): string {
    match v
    case IntValue(i) => IntToString(i)
    case StringValue(s) => s
    case BoolValue(b) => if b then "True" else "False"
    case BlobValue(_) => "b'...'"
  }

  function NoSourceError(puzzleId: Value, pageUrl: string): Exception {
    ValueError("No possible image URLs found for puzzle " + ValueText(puzzleId) + " on page " + pageUrl)
  }

  /**
   * `__extract_img_url`, once the page is fetched: the first word of the widest
   * source's `srcset`, with `&amp;` turned back into `&`. A source without
   * `sizes` fails the sort, a page without sources gives the ValueError naming
   * the puzzle and page, and the chosen source must have a `srcset` with a space in it.
   */
  function ExtractImgUrl(puzzleId: Value, pageUrl: string, sources: seq<Source>): (r: Result<string, Exception>)
    ensures r == Failure(KeyError("sizes")) <==> !AllSized(sources)
    ensures r == Failure(NoSourceError(puzzleId, pageUrl)) <==> AllSized(sources) && |sources| == 0
    ensures r.Success? ==> |sources| > 0 && AllSized(sources)
  {
    if !AllSized(sources) then Failure(KeyError("sizes"))
    else if |sources| == 0 then Failure(NoSourceError(puzzleId, pageUrl))
    else
      var chosen := sources[WidestSource(sources)];
      if chosen.srcset.None? then Failure(KeyError("srcset"))
      else
        match BeforeFirstSpace(chosen.srcset.value)
        case None => Failure(AttributeError)
        case Some(word) => Success(Unescape(word))
  }

  /**
   * The URL of any `srcset` with a space in it: the text before the first space,
   * with every `&amp;` turned back into `&`.
   */
  lemma ExtractFirstWord(puzzleId: Value, pageUrl: string, sources: seq<Source>, word: string, rest: string)
    requires |sources| > 0 && AllSized(sources)
    requires ' ' !in word
    requires sources[WidestSource(sources)].srcset == Some(word + " " + rest)
    ensures ExtractImgUrl(puzzleId, pageUrl, sources) == Success(Unescape(word))
  {
    BeforeFirstSpaceOf(word, rest);
  }

  /**
   * The URL round trip: when the widest source's `srcset` is an image URL
   * (escaped as in HTML) followed by a space and a descriptor, the URL extracted is
   * exactly that image URL.
   */
  lemma ExtractEscapedUrl(puzzleId: Value, pageUrl: string, sources: seq<Source>, url: string, descriptor: string)
    requires |sources| > 0 && AllSized(sources)
    requires ' ' !in url
    requires sources[WidestSource(sources)].srcset == Some(Escape(url) + " " + descriptor)
    ensures ExtractImgUrl(puzzleId, pageUrl, sources) == Success(url)
  {
    EscapeNoSpace(url);
    ExtractFirstWord(puzzleId, pageUrl, sources, Escape(url), descriptor);
    UnescapeEscape(url);
  }

  /** Escaping the test's image URL gives the `srcset` text of its page. */
  lemma EscapeFixtureUrl()
    ensures Escape("http://image.jpg&w=100") == "http://image.jpg&amp;w=100"
  {
    EscapeOneAmpersand("http://image.jpg", "w=100");
    assert "http://image.jpg" + "&" + "w=100" == "http://image.jpg&w=100";
    assert "http://image.jpg" + "&amp;" + "w=100" == "http://image.jpg&amp;w=100";
  }

  /** The test's image URL holds no `&amp;`, so unescaping leaves it as it is. */
  lemma UnescapeFixtureUrl()
    ensures Unescape("http://image.jpg&w=100") == "http://image.jpg&w=100"
  {
    assert "w=100"[0] != "amp;"[0];
    UnescapePlainAmpersand("http://image.jpg", "w=100");
    assert "http://image.jpg" + "&" + "w=100" == "http://image.jpg&w=100";
  }

  /** The test's image URL has no space in it. */
  lemma FixtureUrlHasNoSpace()
    ensures ' ' !in "http://image.jpg&w=100"
  {
    assert "http://image.jpg&w=100" == "http://image.jpg" + "&w=100";
    assert ' ' !in "http://image.jpg";
  }

  /**
   * The page of the finder's test with its `srcset` left escaped,
   * "http://image.jpg&amp;w=100 54": the escape is undone.
   */
  lemma ExtractFixtureUrl(puzzleId: Value, pageUrl: string)
    ensures ExtractImgUrl(puzzleId, pageUrl, [Source(Some("400px"), Some("http://image.jpg&amp;w=100 54"))])
         == Success("http://image.jpg&w=100")
  {
    var url := "http://image.jpg&w=100";
    var sources := [Source(Some("400px"), Some("http://image.jpg&amp;w=100 54"))];
    EscapeFixtureUrl();
    assert Escape(url) + " " + "54" == "http://image.jpg&amp;w=100 54";
    FixtureUrlHasNoSpace();
    assert WidestSource(sources) == 0;
    ExtractEscapedUrl(puzzleId, pageUrl, sources, url, "54");
  }

  /**
   * The page of the finder's test as the HTML parser hands it over, with `&amp;`
   * in the attribute already decoded: "http://image.jpg&w=100 54" gives the same URL.
   */
  lemma ExtractParsedFixtureUrl(puzzleId: Value, pageUrl: string)
    ensures ExtractImgUrl(puzzleId, pageUrl, [Source(Some("400px"), Some("http://image.jpg&w=100 54"))])
         == Success("http://image.jpg&w=100")
  {
    var url := "http://image.jpg&w=100";
    var sources := [Source(Some("400px"), Some("http://image.jpg&w=100 54"))];
    assert url + " " + "54" == "http://image.jpg&w=100 54";
    FixtureUrlHasNoSpace();
    assert WidestSource(sources) == 0;
    ExtractFirstWord(puzzleId, pageUrl, sources, url, "54");
    UnescapeFixtureUrl();
  }

  /** The failures once every source has `sizes`: no `srcset` on the widest source, or no space in it. */
  lemma ExtractImgUrlSrcsetErrors(puzzleId: Value, pageUrl: string, sources: seq<Source>)
    requires |sources| > 0 && AllSized(sources)
    ensures sources[WidestSource(sources)].srcset.None? ==>
              ExtractImgUrl(puzzleId, pageUrl, sources) == Failure(KeyError("srcset"))
    ensures sources[WidestSource(sources)].srcset.Some? && ' ' !in sources[WidestSource(sources)].srcset.value ==>
              ExtractImgUrl(puzzleId, pageUrl, sources) == Failure(AttributeError)
  {
    WidestSourceIsFirstMaximum(sources);
  }

  /** Sizes are compared as text, so of "300px", "400px" and "600px" the last is chosen... */
  lemma WidestOfThree()
    ensures WidestSource([Source(Some("300px"), None), Source(Some("400px"), None), Source(Some("600px"), None)]) == 2
  {
    assert LexLess("300px", "400px");
    assert LexLess("400px", "600px");
    var s := [Source(Some("300px"), None), Source(Some("400px"), None), Source(Some("600px"), None)];
    assert s[..2][..1] == [Source(Some("300px"), None)];
    assert WidestSource(s[..2]) == 1;
  }

  /** ...but "1000px" sorts below "600px", so the 600px source is chosen over the 1000px one. */
  lemma TextualSizeOrder()
    ensures WidestSource([Source(Some("600px"), None), Source(Some("1000px"), None)]) == 0
  {
    assert !LexLess("600px", "1000px");
    var s := [Source(Some("600px"), None), Source(Some("1000px"), None)];
    assert s[..1] == [Source(Some("600px"), None)];
  }

  // ---------------------------------------------------------------------------
  // Updating the entity
  // ---------------------------------------------------------------------------

  /** The properties the finder adds to a puzzle. */
  const ENRICHMENT_KEYS: set<string> := {"has_img", "img_url", "img_blob", "img_width", "img_height", "img_format"}

  /** A puzzle's properties with the image details added. */
  function Enriched(props: map<string, Value>, url: string, blob: seq<byte>, meta: ImageMetadata): map<string, Value> {
    props["has_img" := BoolValue(true)]["img_url" := StringValue(url)]["img_blob" := BlobValue(blob)]
         ["img_width" := IntValue(meta.width)]["img_height" := IntValue(meta.height)]
         ["img_format" := StringValue(meta.format)]
  }

  /**
   * Adding the image details adds exactly the six image properties, holding the
   * given values, and leaves every other property as it was.
   */
  lemma EnrichedFields(props: map<string, Value>, url: string, blob: seq<byte>, meta: ImageMetadata)
    ensures Enriched(props, url, blob, meta).Keys == props.Keys + ENRICHMENT_KEYS
    ensures forall k :: k in props && k !in ENRICHMENT_KEYS ==> Enriched(props, url, blob, meta)[k] == props[k]
    ensures var r := Enriched(props, url, blob, meta);
            && r["has_img"] == BoolValue(true) && r["img_url"] == StringValue(url) && r["img_blob"] == BlobValue(blob)
            && r["img_width"] == IntValue(meta.width) && r["img_height"] == IntValue(meta.height)
            && r["img_format"] == StringValue(meta.format)
  {
  }

  /** An enriched index entity still reads back as the same index puzzle. */
  lemma EnrichedKeepsIndexPuzzle(e: EntityValue, url: string, blob: seq<byte>, meta: ImageMetadata)
    ensures IndexPuzzleOf(EntityValue(e.key, Enriched(e.props, url, blob, meta), ["img_blob"])) == IndexPuzzleOf(e)
  {
    var r := Enriched(e.props, url, blob, meta);
    assert forall k :: k in {"id", "timestamp_millis", "page_url", "difficulty"} ==> (k in r <==> k in e.props);
    assert forall k :: k in {"id", "timestamp_millis", "page_url", "difficulty"} && k in e.props ==> r[k] == e.props[k];
  }

  /** Enriching twice with the same image gives what enriching once gives: re-running the finder changes nothing. */
  lemma EnrichedIdempotent(props: map<string, Value>, url: string, blob: seq<byte>, meta: ImageMetadata)
    ensures Enriched(Enriched(props, url, blob, meta), url, blob, meta) == Enriched(props, url, blob, meta)
  {
    var once := Enriched(props, url, blob, meta);
    var twice := Enriched(once, url, blob, meta);
    assert twice.Keys == once.Keys;
    assert forall k :: k in twice ==> twice[k] == once[k];
  }

  /**
   * What `update_puzzle_with_image` does to the entity's properties: the enriched
   * properties, or the exception it raises. The id and page URL must be present;
   * the page URL must hold text.
   */
  function ImageUpdate(props: map<string, Value>, detailPage: string -> seq<Source>,
                       download: string -> seq<byte>, decode: seq<byte> -> Option<ImageMetadata>)
    : (r: Result<map<string, Value>, Exception>)
    requires "page_url" in props ==> props["page_url"].StringValue?
    ensures "id" !in props ==> r == Failure(KeyError("id"))
    ensures "id" in props && "page_url" !in props ==> r == Failure(KeyError("page_url"))
    ensures r.Success? ==> r.value.Keys == props.Keys + ENRICHMENT_KEYS && r.value["has_img"] == BoolValue(true)
  {
    if "id" !in props then Failure(KeyError("id"))
    else if "page_url" !in props then Failure(KeyError("page_url"))
    else
      var pageUrl := props["page_url"].s;
      match ExtractImgUrl(props["id"], pageUrl, detailPage(pageUrl))
      case Failure(e) => Failure(e)
      case Success(url) =>
        var blob := download(url);
        match decode(blob)
        case None => Failure(ValueError(NO_IMAGE))
        case Some(meta) => Success(Enriched(props, url, blob, meta))
  }

  /**
   * `update_puzzle_with_image`: on success the entity holds the image details,
   * its blob is excluded from indexing, and the updated entity is written to the
   * store once. On any exception neither the entity nor the store has changed.
   */
  method UpdatePuzzleWithImage(datastore: DatastoreClient, entity: Entity, detailPage: string -> seq<Source>,
                               download: string -> seq<byte>, decode: seq<byte> -> Option<ImageMetadata>)
    returns (outcome: Outcome<Exception>)
    requires "page_url" in entity.props ==> entity.props["page_url"].StringValue?
    modifies entity, datastore`updates
    ensures var expected := ImageUpdate(old(entity.props), detailPage, download, decode);
            match expected
            case Failure(e) =>
              && outcome == Fail(e)
              && entity.props == old(entity.props) && entity.excludeFromIndexes == old(entity.excludeFromIndexes)
              && datastore.updates == old(datastore.updates)
            case Success(props) =>
              && outcome == Pass
              && entity.props == props && entity.excludeFromIndexes == ["img_blob"]
              && datastore.updates == old(datastore.updates) + [entity.Snapshot()]
  {
    if "id" !in entity.props {
      return Fail(KeyError("id"));
    }
    if "page_url" !in entity.props {
      return Fail(KeyError("page_url"));
    }
    var pageUrl := entity.props["page_url"].s;
    var extracted := ExtractImgUrl(entity.props["id"], pageUrl, detailPage(pageUrl));
    if extracted.Failure? {
      return Fail(extracted.error);
    }
    var url := extracted.value;
    var blob := download(url);
    var metadata := decode(blob);
    if metadata.None? {
      return Fail(ValueError(NO_IMAGE));
    }
    var meta := metadata.value;

    entity.props := entity.props["has_img" := BoolValue(true)];
    entity.props := entity.props["img_url" := StringValue(url)];
    entity.props := entity.props["img_blob" := BlobValue(blob)];
    entity.excludeFromIndexes := ["img_blob"];
    entity.props := entity.props["img_width" := IntValue(meta.width)];
    entity.props := entity.props["img_height" := IntValue(meta.height)];
    entity.props := entity.props["img_format" := StringValue(meta.format)];

    datastore.Update(entity.Snapshot());
    return Pass;
  }

  /** An image the decoder cannot read makes the update fail with the ValueError "Cannot parse puzzle image". */
  lemma UndecodableImageFails(props: map<string, Value>, detailPage: string -> seq<Source>,
                              download: string -> seq<byte>, decode: seq<byte> -> Option<ImageMetadata>, url: string)
    requires "id" in props && "page_url" in props && props["page_url"].StringValue?
    requires ExtractImgUrl(props["id"], props["page_url"].s, detailPage(props["page_url"].s)) == Success(url)
    requires decode(download(url)).None?
    ensures ImageUpdate(props, detailPage, download, decode) == Failure(ValueError(NO_IMAGE))
  {
  }

  /** A puzzle page with no `<source>` elements (or unparseable text) makes the update fail with a ValueError. */
  lemma NoSourcesFails(props: map<string, Value>, download: string -> seq<byte>, decode: seq<byte> -> Option<ImageMetadata>)
    requires "id" in props && "page_url" in props && props["page_url"].StringValue?
    ensures ImageUpdate(props, (url: string) => [], download, decode)
         == Failure(NoSourceError(props["id"], props["page_url"].s))
  {
  }

  /**
   * The shape of a successful update: the URL extracted from the page names an
   * image that decodes, and the entity gains exactly that URL, the downloaded
   * bytes and the decoded metadata.
   */
  lemma UpdateWithDecodableImage(props: map<string, Value>, detailPage: string -> seq<Source>,
                                 download: string -> seq<byte>, decode: seq<byte> -> Option<ImageMetadata>,
                                 url: string)
    requires "id" in props && "page_url" in props && props["page_url"].StringValue?
    requires ExtractImgUrl(props["id"], props["page_url"].s, detailPage(props["page_url"].s)) == Success(url)
    requires decode(download(url)).Some?
    ensures ImageUpdate(props, detailPage, download, decode)
         == Success(Enriched(props, url, download(url), decode(download(url)).value))
  {
  }
}
