/** The two hand-written readers of `data:` URLs (section 3 of RFC 2397) in internal/gateway. */
module DataUrl {
  import opened Text

  const PREFIX := "data:"

  /** The position of the first c in s. */
  function Index(s: string, c: char): (r: Option<nat>)
    ensures r.Some? ==> r.value < |s| && s[r.value] == c && forall j :: 0 <= j < r.value ==> s[j] != c
    ensures r.None? ==> c !in s
  {
    if s == "" then None
    else if s[0] == c then Some(0)
    else
      var r := Index(s[1..], c);
      assert s == [s[0]] + s[1..];
      assert forall j :: 1 <= j < |s| ==> s[j] == s[1..][j - 1];
      if r.None? then None else Some(r.value + 1)
  }

  /** Media type up to the first `;` and payload after the first `,`, when the `;` comes first. */
  function Read(url: string): Option<(string, string)> {
    if |url| <= |PREFIX| || url[..|PREFIX|] != PREFIX then None
    else
      var rest := url[|PREFIX|..];
      var comma := Index(rest, ',');
      if comma.None? then None
      else
        var semi := Index(rest[..comma.value], ';');
        if semi.None? then None else Some((rest[..semi.value], rest[comma.value + 1..]))
  }

  /** A URL reads as media type m and payload d exactly when it is "data:", m, a semicolon, anything without a
      comma, a comma, and d, where m has no semicolon and no comma. */
  lemma ReadMeans(url: string, m: string, d: string)
    ensures Read(url) == Some((m, d)) <==>
            ';' !in m && ',' !in m && exists x :: ',' !in x && url == "data:" + m + ";" + x + "," + d
  {
    if x :| ';' !in m && ',' !in m && ',' !in x && url == "data:" + m + ";" + x + "," + d {
      Reads(url, m, x, d);
    }
    if Read(url) == Some((m, d)) {
      var x := ReadParts(url, m, d);
    }
  }

  lemma ReadParts(url: string, m: string, d: string) returns (x: string)
    requires Read(url) == Some((m, d))
    ensures ';' !in m && ',' !in m && ',' !in x && url == "data:" + m + ";" + x + "," + d
  {
    var rest := url[5..];
    var c := Index(rest, ',').value;
    var s := Index(rest[..c], ';').value;
    x := rest[s + 1..c];
    CutTwice(rest, s, c);
    CutFront(url, rest);
  }

  lemma CutTwice(rest: string, s: nat, c: nat)
    requires s < c < |rest| && rest[c] == ',' && rest[..c][s] == ';'
    requires (forall j :: 0 <= j < c ==> rest[j] != ',') && forall j :: 0 <= j < s ==> rest[..c][j] != ';'
    ensures rest == rest[..s] + ";" + rest[s + 1..c] + "," + rest[c + 1..]
    ensures ';' !in rest[..s] && ',' !in rest[..s] && ',' !in rest[s + 1..c]
  {
    assert forall k :: 0 <= k < s ==> rest[..c][k] == rest[k];
  }

  lemma CutFront(url: string, rest: string)
    requires |url| >= 5 && rest == url[5..] && url[..5] == "data:"
    ensures forall m: string, x: string, d: string :: rest == m + ";" + x + "," + d ==> url == "data:" + m + ";" + x + "," + d
  {
    forall m: string, x: string, d: string | rest == m + ";" + x + "," + d ensures url == "data:" + m + ";" + x + "," + d {
      assert url == url[..5] + rest;
      assert "data:" + (m + ";" + x + "," + d) == "data:" + m + ";" + x + "," + d;
    }
  }

  lemma Reads(url: string, m: string, x: string, d: string)
    requires ';' !in m && ',' !in m && ',' !in x && url == "data:" + m + ";" + x + "," + d
    ensures Read(url) == Some((m, d))
  {
    var rest, c := m + ";" + x + "," + d, |m| + 1 + |x|;
    assert url[5..] == rest && url[..5] == "data:";
    assert forall k :: 0 <= k < c ==> rest[k] == (m + ";" + x)[k];
    IndexIs(rest, ',', c);
    var head := rest[..c];
    assert head == m + ";" + x && forall k :: 0 <= k < |m| ==> head[k] == m[k];
    IndexIs(head, ';', |m|);
    assert rest[..|m|] == m && rest[c + 1..] == d;
  }

  datatype Source = Base64(mediaType: string, data: string) | Url(url: string)

  /** What the loops over a URL look for: the first `;` before the first `,`, and that `,`. */
  ghost predicate Scanned(s: string, from: nat, i: int, semi: int, comma: int) {
    && from <= i <= |s|
    && (semi == -1 || (from <= semi < i && s[semi] == ';'))
    && (forall k :: from <= k < (if semi == -1 then i else semi) ==> s[k] != ';')
    && (comma == -1 || (comma == i && i < |s| && s[i] == ','))
    && (forall k :: from <= k < i ==> s[k] != ',')
  }

  lemma IndexIs(s: string, c: char, k: nat)
    requires k < |s| && s[k] == c && forall j :: 0 <= j < k ==> s[j] != c
    ensures Index(s, c) == Some(k)
  {
    assert s[k] in s;
  }

  lemma IndexNone(s: string, c: char)
    requires forall j :: 0 <= j < |s| ==> s[j] != c
    ensures Index(s, c) == None
  {
  }

  /** From what the loop found, what Read says. */
  lemma ScanDecides(url: string, semi: int, comma: int)
    requires |url| > |PREFIX| && url[..|PREFIX|] == PREFIX
    requires Scanned(url, |PREFIX|, if comma == -1 then |url| else comma, semi, comma)
    ensures Read(url) == if semi != -1 && comma != -1 then Some((url[|PREFIX|..semi], url[comma + 1..])) else None
  {
    var n := |PREFIX|;
    var rest := url[n..];
    if comma == -1 {
      assert forall k :: 0 <= k < |rest| ==> rest[k] == url[n + k];
      IndexNone(rest, ',');
    } else {
      assert forall k :: 0 <= k < |rest| ==> rest[k] == url[n + k];
      IndexIs(rest, ',', comma - n);
      var head := rest[..comma - n];
      assert forall k :: 0 <= k < |head| ==> head[k] == url[n + k];
      if semi == -1 {
        IndexNone(head, ';');
      } else {
        IndexIs(head, ';', semi - n);
        assert rest[..semi - n] == url[n..semi] && rest[comma - n + 1..] == url[comma + 1..];
      }
    }
  }

  /** imageURLToAnthropicSource. */
  method ImageUrlToAnthropicSource(url: string) returns (src: Source)
    ensures src == match Read(url) case Some((m, d)) => Base64(m, d) case None => Url(url)
  {
    if |url| > |PREFIX| && url[..|PREFIX|] == PREFIX {
      var semi, comma, i := -1, -1, |PREFIX|;
      while i < |url|
        invariant Scanned(url, |PREFIX|, i, semi, comma) && comma == -1
      {
        if semi < 0 && url[i] == ';' {
          semi := i;
        }
        if url[i] == ',' {
          comma := i;
          break;
        }
        i := i + 1;
      }
      ScanDecides(url, semi, comma);
      if semi > 0 && comma > semi {
        return Base64(url[|PREFIX|..semi], url[comma + 1..]);
      }
    }
    src := Url(url);
  }

  /** decodeDataURL, which works on the part after the prefix and refuses an empty media type. */
  method DecodeDataUrl(url: string) returns (r: Option<(string, string)>)
    ensures r == if Read(url).Some? && Read(url).value.0 != "" then Read(url) else None
  {
    if |url| <= |PREFIX| || url[..|PREFIX|] != PREFIX {
      return None;
    }
    var rest := url[|PREFIX|..];
    var semi, comma, i := -1, -1, 0;
    while i < |rest|
      invariant Scanned(rest, 0, i, semi, comma) && comma == -1
    {
      if semi < 0 && rest[i] == ';' {
        semi := i;
      }
      if rest[i] == ',' {
        comma := i;
        break;
      }
      i := i + 1;
    }
    ghost var n := |PREFIX|;
    assert forall k :: 0 <= k < |rest| ==> rest[k] == url[n + k];
    assert Scanned(url, n, n + i, if semi == -1 then -1 else n + semi, if comma == -1 then -1 else n + comma);
    ScanDecides(url, if semi == -1 then -1 else n + semi, if comma == -1 then -1 else n + comma);
    if semi <= 0 || comma <= semi {
      return None;
    }
    assert url[n..n + semi] == rest[..semi] && url[n + comma + 1..] == rest[comma + 1..];
    r := Some((rest[..semi], rest[comma + 1..]));
  }

  function Anthropic(url: string): Option<(string, string)> {
    Read(url)
  }

  function Gemini(url: string): Option<(string, string)> {
    if Read(url).Some? && Read(url).value.0 != "" then Read(url) else None
  }

  /** The URLs with an empty media type: `data:;`, then no comma up to some comma. */
  predicate EmptyMediaType(url: string) {
    |url| > |PREFIX| && url[..|PREFIX|] == PREFIX && url[|PREFIX|] == ';' && ',' in url[|PREFIX|..]
  }

  /** The two readers disagree exactly on those. */
  lemma ReadersAgreeIffMediaType(url: string)
    ensures Anthropic(url) == Gemini(url) <==> !EmptyMediaType(url)
  {
    if |url| > |PREFIX| && url[..|PREFIX|] == PREFIX {
      var rest := url[|PREFIX|..];
      assert rest[0] == url[|PREFIX|];
      var comma := Index(rest, ',');
      if comma.Some? && rest[0] == ';' {
        IndexIs(rest[..comma.value], ';', 0);
      }
    }
  }

  function Print(mediaType: string, payload: string): string {
    PREFIX + mediaType + ";base64," + payload
  }

  lemma PrintLayout(m: string, p: string)
    ensures var u := Print(m, p);
            |u| > |PREFIX| && u[..|PREFIX|] == PREFIX && u[|PREFIX|..] == m + (";base64," + p)
  {
  }

  /** Both readers give back the media type and payload a URL was printed from, exactly when the media type
      has no `;` and no `,` (and, for Gemini's, is not empty); the payload may be anything. */
  lemma ReadersUndoPrint(m: string, p: string)
    ensures Anthropic(Print(m, p)) == Some((m, p)) <==> ';' !in m && ',' !in m
    ensures Gemini(Print(m, p)) == Some((m, p)) <==> ';' !in m && ',' !in m && m != ""
  {
    PrintLayout(m, p);
    var rest := m + (";base64," + p);
    if ',' in m {
      var k :| 0 <= k < |m| && m[k] == ',';
      assert rest[k] == ',' && rest[k] in rest;
      var c := Index(rest, ',').value;
      assert c <= k;
      assert |rest[c + 1..]| > |p|;
    } else {
      var c := |m| + 7;
      assert forall j :: 0 <= j < |m| ==> rest[j] == m[j];
      assert rest[c] == ',' && forall j :: |m| <= j < c ==> rest[j] == ";base64"[j - |m|];
      IndexIs(rest, ',', c);
      assert rest[c + 1..] == p;
      var head := rest[..c];
      if ';' in m {
        var k :| 0 <= k < |m| && m[k] == ';';
        assert head[k] == ';' && head[k] in head;
        var s := Index(head, ';').value;
        assert s <= k;
        assert |rest[..s]| < |m|;
      } else {
        assert head[|m|] == ';' && forall j :: 0 <= j < |m| ==> head[j] == m[j];
        IndexIs(head, ';', |m|);
        assert rest[..|m|] == m;
      }
    }
  }
}
