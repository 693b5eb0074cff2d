/** The national-site record and the string rules that turn the texts found in the
    nps.gov pages into records, state keys and URLs. The markup queries themselves
    are not modelled: their results arrive as Option-typed texts. */
module Sites {
  import opened Errors
  import opened Text

  const BaseUrl: string := "https://www.nps.gov"
  /** The directory page that lists the states. */
  const DirectoryUrl: string := "https://www.nps.gov/index.htm"

  /** A national site; the datatype constructor is `NationalSite.__init__`. */
  datatype NationalSite = NationalSite(category: string, name: string, address: string, zipcode: string, phone: string)
  {
    /** `info()`: "<name> (<category>): <address> <zipcode>". */
    function Info(): string {
      name + " (" + category + "): " + address + " " + zipcode
    }
  }

  /** The second `span` inside the `adr` element: the texts of its first nested span
      (street), of its `region` element and of its `postal-code` element. */
  datatype AddressSpan = AddressSpan(street: Option<string>, region: Option<string>, postal: Option<string>)

  /** What a site page offers: the `Hero-designation` text, the `Hero-title` text, the
      address span (None when there is no `adr` element or it has fewer than two spans)
      and the `tel` text. */
  datatype SitePage = SitePage(designation: Option<string>, title: Option<string>,
                               address: Option<AddressSpan>, tel: Option<string>)

  /** One entry of the state drop-down menu: its text and the href of its link, if any. */
  datatype MenuItem = MenuItem(text: string, href: Option<string>)

  // ---------------------------------------------------------------------------
  // Fields of a site record

  /** The zip code of a postal-code text: its first whitespace-separated token, if any. */
  function Zipcode(postal: string): (r: Option<string>)
    ensures r.None? <==> AllSpace(postal)
    ensures r.Some? ==> r.value != [] && NoSpace(r.value)
  {
    var ws := Words(postal);
    WordsEmpty(postal);
    if ws == [] then None else Some(ws[0])
  }

  /** The guarded address block: street + ", " + region and the zip code, or both "" as
      soon as any part of the block is missing, even once the address was formed. */
  function AddressFields(span: Option<AddressSpan>): (r: (string, string))
    ensures (r.0 == "") <==> (r.1 == "")
    ensures NoSpace(r.1)
  {
    if span.None? then ("", "")
    else
      var a := span.value;
      if a.street.None? || a.region.None? || a.postal.None? then ("", "")
      else
        var address := a.street.value + ", " + a.region.value;
        assert address[|a.street.value|] == ',';
        match Zipcode(a.postal.value)
        case None => ("", "")
        case Some(zip) => (address, zip)
  }

  /** The address fields are filled exactly when the span and all three of its parts are
      present and the postal code holds a token; then they are street + ", " + region and
      that first token. */
  lemma AddressFieldsFilled(span: Option<AddressSpan>)
    ensures var r := AddressFields(span);
      r != ("", "") <==>
        span.Some? && span.value.street.Some? && span.value.region.Some? && span.value.postal.Some?
        && Words(span.value.postal.value) != []
    ensures var r := AddressFields(span);
      r != ("", "") ==>
        r.0 == span.value.street.value + ", " + span.value.region.value
        && r.1 == Words(span.value.postal.value)[0]
  {
  }

  /** A hyphenated ZIP+4 code is one token and is kept whole; surrounding whitespace
      (the page text is padded with newlines) is dropped. */
  lemma ZipPlusFourKeptWhole(pre: string, zip: string, post: string)
    requires AllSpace(pre) && zip != [] && NoSpace(zip) && (post == [] || IsSpace(post[0]))
    ensures Zipcode(pre + zip + post) == Some(zip)
  {
    FirstWord(pre, zip, post);
  }

  /** A blank postal code fails the block, so address and zip code both fall back to "". */
  lemma BlankPostalClearsAddress(street: string, region: string, postal: string)
    requires AllSpace(postal)
    ensures AddressFields(Some(AddressSpan(Some(street), Some(region), Some(postal)))) == ("", "")
  {
    WordsEmpty(postal);
  }

  /** The phone: the piece at index 1 of the `tel` text split on newlines. A missing
      element or a text with no newline raises. */
  function Phone(tel: Option<string>): (r: Result<string>)
    ensures r.Ok? <==> tel.Some? && '\n' in tel.value
    ensures r.Ok? ==> '\n' !in r.value
  {
    if tel.None? then Err(MissingElement("tel"))
    else
      var ls := Lines(tel.value);
      LinesHasSecond(tel.value);
      LinesSplit(tel.value);
      if |ls| < 2 then Err(MissingLine) else Ok(ls[1])
  }

  /** The phone is the second line: in "<caption>\n<number>\n..." it is the number. */
  lemma PhoneIsSecondLine(caption: string, number: string, rest: string)
    requires '\n' !in caption && '\n' !in number && (rest == [] || rest[0] == '\n')
    ensures Phone(Some(caption + "\n" + number + rest)) == Ok(number)
  {
    SecondLine(caption, number, rest);
  }

  /** `get_site_instance` after the page is parsed: category defaults to "", the name
      and the phone are required, and address and zip code default together. */
  function SiteFromPage(p: SitePage): (r: Result<NationalSite>)
    ensures r.Ok? <==> p.title.Some? && p.tel.Some? && '\n' in p.tel.value
    ensures r.Ok? ==>
      && r.value.name == p.title.value
      && r.value.category == (if p.designation.Some? then p.designation.value else "")
      && (r.value.address == "" <==> r.value.zipcode == "")
      && (r.value.address, r.value.zipcode) == AddressFields(p.address)
      && NoSpace(r.value.zipcode)
      && Phone(p.tel) == Ok(r.value.phone)
  {
    var category := if p.designation.Some? then p.designation.value else "";
    if p.title.None? then Err(MissingElement("Hero-title"))
    else
      var (address, zipcode) := AddressFields(p.address);
      match Phone(p.tel)
      case Err(e) => Err(e)
      case Ok(phone) => Ok(NationalSite(category, p.title.value, address, zipcode, phone))
  }

  /** A page without an address block still gives a record, with address and zip code
      empty, as long as it has a title and a two-line telephone text. */
  lemma MissingAddressDefaults(p: SitePage)
    requires p.address.None? && p.title.Some? && p.tel.Some? && '\n' in p.tel.value
    ensures SiteFromPage(p).Ok?
    ensures SiteFromPage(p).value.address == "" && SiteFromPage(p).value.zipcode == ""
  {
  }

  /** The zip code is the last field of `info()`: it holds no whitespace and follows a
      space, so it can be read back from the line. */
  lemma InfoEndsWithZipcode(s: NationalSite)
    requires NoSpace(s.zipcode)
    ensures LastWord(s.Info()) == s.zipcode
  {
    LastWordAfterSpace(s.name + " (" + s.category + "): " + s.address, s.zipcode);
  }

  /** Every record the extractor builds can have its zip code read back from `info()`. */
  lemma ExtractedInfoEndsWithZipcode(p: SitePage)
    requires SiteFromPage(p).Ok?
    ensures LastWord(SiteFromPage(p).value.Info()) == SiteFromPage(p).value.zipcode
  {
    InfoEndsWithZipcode(SiteFromPage(p).value);
  }

  // ---------------------------------------------------------------------------
  // URLs and the state map

  /** The URL of a state page: the site root followed by the menu link. */
  function StateUrl(href: string): string {
    BaseUrl + href
  }

  /** The URL of a site page: the site root, the heading link, then "index.htm". */
  function SiteUrl(href: string): string {
    BaseUrl + href + "index.htm"
  }

  /** Different heading links give different site URLs, so no two listed sites share a
      cache entry. */
  lemma SiteUrlInjective(a: string, b: string)
    ensures SiteUrl(a) == SiteUrl(b) ==> a == b
  {
    if SiteUrl(a) == SiteUrl(b) {
      var u := SiteUrl(a);
      assert a == u[|BaseUrl|..|u| - 9];
    }
  }

  /** The state map built from the menu entries in order: each lower-cased entry text
      maps to its state URL, a later entry overwriting an earlier one with the same key.
      An entry without a link raises. */
  function StateDict(items: seq<MenuItem>): Result<map<string, string>>
    decreases |items|
  {
    if items == [] then Ok(map[])
    else
      var last := items[|items| - 1];
      match StateDict(items[..|items| - 1])
      case Err(e) => Err(e)
      case Ok(d) =>
        if last.href.None? then Err(MissingElement("a[href]"))
        else Ok(d[Lower(last.text) := StateUrl(last.href.value)])
  }

  /** No entry after position `i` has the same key as entry `i`. */
  ghost predicate LastWithKey(items: seq<MenuItem>, i: int)
    requires 0 <= i < |items|
  {
    forall j :: i < j < |items| ==> Lower(items[j].text) != Lower(items[i].text)
  }

  /** The state map is built exactly when every entry has a link, and the error is
      always the missing link. */
  lemma {:induction false} StateDictDefined(items: seq<MenuItem>)
    ensures StateDict(items).Ok? <==> forall i :: 0 <= i < |items| ==> items[i].href.Some?
    ensures StateDict(items).Err? ==> StateDict(items) == Err(MissingElement("a[href]"))
    decreases |items|
  {
    if items != [] {
      var n := |items| - 1;
      StateDictDefined(items[..n]);
      assert forall i :: 0 <= i < n ==> items[..n][i] == items[i];
    }
  }

  /** The keys of the state map are the lower-cased entry texts. */
  lemma {:induction false} StateDictKeys(items: seq<MenuItem>)
    requires StateDict(items).Ok?
    ensures forall k :: k in StateDict(items).value <==> exists i :: 0 <= i < |items| && Lower(items[i].text) == k
    decreases |items|
  {
    if items != [] {
      var n := |items| - 1;
      var init := items[..n];
      StateDictKeys(init);
      var d := StateDict(init).value;
      var e := StateDict(items).value;
      assert e == d[Lower(items[n].text) := StateUrl(items[n].href.value)];
      forall k ensures k in e <==> exists i :: 0 <= i < |items| && Lower(items[i].text) == k {
        if k in d {
          var i :| 0 <= i < n && Lower(init[i].text) == k;
          assert items[i] == init[i];
        }
        if exists i :: 0 <= i < |items| && Lower(items[i].text) == k {
          var i :| 0 <= i < |items| && Lower(items[i].text) == k;
          if i < n { assert init[i] == items[i]; }
        }
      }
    }
  }

  /** Each key of the state map holds the URL of the last entry with that key: a later
      entry overwrites an earlier one. */
  lemma {:induction false} StateDictLastWins(items: seq<MenuItem>)
    requires StateDict(items).Ok?
    ensures forall i :: 0 <= i < |items| && LastWithKey(items, i) ==>
      && items[i].href.Some? && Lower(items[i].text) in StateDict(items).value
      && StateDict(items).value[Lower(items[i].text)] == StateUrl(items[i].href.value)
    decreases |items|
  {
    StateDictKeys(items);
    StateDictDefined(items);
    if items != [] {
      var n := |items| - 1;
      var init := items[..n];
      StateDictLastWins(init);
      StateDictDefined(items);
      var d := StateDict(init).value;
      var e := StateDict(items).value;
      assert e == d[Lower(items[n].text) := StateUrl(items[n].href.value)];
      forall i | 0 <= i < |items| && LastWithKey(items, i)
        ensures items[i].href.Some? && Lower(items[i].text) in e && e[Lower(items[i].text)] == StateUrl(items[i].href.value)
      {
        if i < n {
          assert init[i] == items[i];
          assert Lower(items[n].text) != Lower(items[i].text);
          assert LastWithKey(init, i) by {
            forall j | i < j < n ensures Lower(init[j].text) != Lower(init[i].text) {
              assert init[j] == items[j];
            }
          }
        }
      }
    }
  }

  /** The keys of the state map hold no upper-case ASCII letter, so a lower-cased user
      entry is the form to look them up with. */
  lemma StateKeysAreLowerCase(items: seq<MenuItem>)
    requires StateDict(items).Ok?
    ensures forall k :: k in StateDict(items).value ==> Lower(k) == k
  {
    StateDictKeys(items);
    forall k | k in StateDict(items).value ensures Lower(k) == k {
      var i :| 0 <= i < |items| && Lower(items[i].text) == k;
      LowerIdempotent(items[i].text);
    }
  }

  /** The menu text "Michigan" gives the key "michigan". */
  lemma MichiganKey()
    ensures Lower("Michigan") == "michigan"
  {
    assert "Michigan"[1..] == "ichigan";
    LowerKeepsLowerCase("ichigan");
  }

  /** The menu link "/state/mi/index.htm" gives the full state page URL. */
  lemma MichiganUrl()
    ensures StateUrl("/state/mi/index.htm") == "https://www.nps.gov/state/mi/index.htm"
  {
    assert BaseUrl + "/state/mi/index.htm" == "https://www.nps.gov/state/mi/index.htm";
  }

  /** A menu with the single entry "Michigan" gives the one key "michigan". */
  lemma MichiganExample()
    ensures StateDict([MenuItem("Michigan", Some("/state/mi/index.htm"))])
      == Ok(map["michigan" := "https://www.nps.gov/state/mi/index.htm"])
  {
    var items := [MenuItem("Michigan", Some("/state/mi/index.htm"))];
    assert items[..0] == [];
    assert StateDict(items) == Ok(map[Lower("Michigan") := StateUrl("/state/mi/index.htm")]);
    MichiganKey();
    MichiganUrl();
  }
}
