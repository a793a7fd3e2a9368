/** The per-domain tag vocabulary of the latest generation (`src/domain/blocking/tags.ts`). */
module DomainTags {
  const INTERVALOS: string := "intervalos"
  const POR_SEMANA: string := "por_semana"

  /** `DOMAIN_TAGS`. */
  const DOMAIN_TAGS: seq<string> := [INTERVALOS, POR_SEMANA]

  /** `isDomainTag`: exact, case-sensitive membership in `DOMAIN_TAGS`. */
  predicate IsDomainTag(v: string)
  {
    v in DOMAIN_TAGS
  }

  /** The vocabulary is exactly the two tags, so every other spelling is refused. */
  lemma DomainTagsExact(v: string)
    ensures IsDomainTag(v) <==> v == "intervalos" || v == "por_semana"
    ensures |DOMAIN_TAGS| == 2
  {
  }

  /** `list.filter(isDomainTag)`. */
  function FilterTags(xs: seq<string>): (r: seq<string>)
    ensures forall t :: t in r <==> t in xs && IsDomainTag(t)
    ensures |r| <= |xs|
  {
    if |xs| == 0 then []
    else (if IsDomainTag(xs[0]) then [xs[0]] else []) + FilterTags(xs[1..])
  }

  /** A non-empty list of known tags holds one of the two. */
  lemma {:induction false} KnownTagsNonEmpty(tags: seq<string>)
    requires |tags| > 0 && forall t :: t in tags ==> IsDomainTag(t)
    ensures INTERVALOS in tags || POR_SEMANA in tags
  {
    assert tags[0] in tags;
  }
}
