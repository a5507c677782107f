/** The closed set of IPO application categories and their textual tags. */
module Categories {
  import opened Wrappers

  datatype Category = Retail | Shni | Bhni

  /** The lower-case tag the application string uses for a category. */
  function Tag(c: Category): string
  {
    match c
    case Retail => "retail"
    case Shni => "shni"
    case Bhni => "bhni"
  }

  /** Membership test `token in ['retail', 'shni', 'bhni']`, returning the
      category the token names. */
  function FromTag(token: string): (r: Option<Category>)
    ensures r.Some? ==> Tag(r.value) == token
    ensures r.None? ==> forall c: Category :: Tag(c) != token
  {
    if token == "retail" then Some(Retail)
    else if token == "shni" then Some(Shni)
    else if token == "bhni" then Some(Bhni)
    else None
  }

  lemma TagRoundTrip(c: Category)
    ensures FromTag(Tag(c)) == Some(c)
  {
  }
}
