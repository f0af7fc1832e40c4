/** What the content service accepts as the fields of a version. */
module Fields {
  import opened Tables
  import opened EntityTags

  const MAX_TITLE := 500
  const MAX_BODY := 500000
  const MAX_META := 1000
  const MAX_URL := 2000

  /** White space goes from everywhere but the body, which is the document. */
  function Trimmed(f: VersionFields): VersionFields {
    f.(title := TrimSpace(f.title), metaTitle := TrimSpace(f.metaTitle),
       metaDescription := TrimSpace(f.metaDescription),
       canonicalUrl := TrimSpace(f.canonicalUrl), ogImageUrl := TrimSpace(f.ogImageUrl))
  }

  /** The first field that is missing or too long is named. */
  function NormalizeFields(f: VersionFields): (r: Result<VersionFields>)
    ensures r.Ok? ==> r.value.body == f.body && r.value.noIndex == f.noIndex && r.value.title != []
    ensures r.Err? ==> r.error.Invalid?
  {
    var g := Trimmed(f);
    if g.title == [] then Err(Invalid("title"))
    else if |g.title| > MAX_TITLE then Err(Invalid("title"))
    else if |g.body| > MAX_BODY then Err(Invalid("body"))
    else if |g.metaTitle| > MAX_META then Err(Invalid("meta_title"))
    else if |g.metaDescription| > MAX_META then Err(Invalid("meta_description"))
    else if |g.canonicalUrl| > MAX_URL then Err(Invalid("canonical_url"))
    else if |g.ogImageUrl| > MAX_URL then Err(Invalid("og_image_url"))
    else Ok(g)
  }

  lemma {:induction false} TrimLeftEnds(s: string)
    ensures TrimLeft(s) == [] || !IsSpace(TrimLeft(s)[0])
    decreases |s|
  {
    if s != [] && IsSpace(s[0]) {
      TrimLeftEnds(s[1..]);
    }
  }

  lemma {:induction false} TrimRightEnds(s: string)
    ensures TrimRight(s) <= s
    ensures TrimRight(s) == [] || !IsSpace(TrimRight(s)[|TrimRight(s)| - 1])
    decreases |s|
  {
    if s != [] && IsSpace(s[|s| - 1]) {
      TrimRightEnds(s[..|s| - 1]);
    }
  }

  lemma TrimTwice(s: string)
    ensures TrimSpace(TrimSpace(s)) == TrimSpace(s)
  {
    TrimLeftEnds(s);
    TrimRightEnds(TrimLeft(s));
    var t := TrimSpace(s);
    if t != [] {
      TrimPadded([], t, []);
      assert [] + t + [] == t;
    }
  }

  /** Sending back what was stored stores the same again. */
  lemma NormalizingIsStable(f: VersionFields)
    requires NormalizeFields(f).Ok?
    ensures NormalizeFields(NormalizeFields(f).value) == NormalizeFields(f)
  {
    hide TrimSpace;
    TrimTwice(f.title);
    TrimTwice(f.metaTitle);
    TrimTwice(f.metaDescription);
    TrimTwice(f.canonicalUrl);
    TrimTwice(f.ogImageUrl);
  }

  /** Every field that is stored, and every refusal with the field it names. */
  lemma NormalizeFieldsMeans(f: VersionFields)
    ensures var r := NormalizeFields(f);
            var title, body, url := |TrimSpace(f.title)|, |f.body|, |TrimSpace(f.canonicalUrl)|;
            var meta, text, image := |TrimSpace(f.metaTitle)|, |TrimSpace(f.metaDescription)|, |TrimSpace(f.ogImageUrl)|;
            && (r.Ok? <==>
                  1 <= title <= 500 && body <= 500000 && meta <= 1000 && text <= 1000 && url <= 2000 && image <= 2000)
            && (r.Ok? ==> r.value == VersionFields(TrimSpace(f.title), f.body, TrimSpace(f.metaTitle),
                  TrimSpace(f.metaDescription), TrimSpace(f.canonicalUrl), TrimSpace(f.ogImageUrl), f.noIndex))
            && (r.Err? ==> r.error == Invalid(
                  if title < 1 || 500 < title then "title" else if 500000 < body then "body"
                  else if 1000 < meta then "meta_title" else if 1000 < text then "meta_description"
                  else if 2000 < url then "canonical_url" else "og_image_url"))
  {
    hide TrimSpace;
  }
}
