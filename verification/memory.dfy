/** The in-memory link store: a map from slug to record, with generated slugs
    found by a bounded generate-and-check loop. Every operation is one atomic
    step, so each is a pure function from the old map to the new one. */
module Memory {
  import opened Wrappers
  import opened Models
  import opened Slug

  /** The store's contents, indexed by slug. */
  type Links = map<string, Link>

  /** `maxrecursion`: the largest value of the retry counter that still makes a call. */
  const MaxRecursion: nat := 5

  /** The number of generator calls the retry loop can make: counter values 0..5. */
  const MaxCalls: nat := MaxRecursion + 1

  /** The errors the store reports. `CouldNotGenerate` carries the attempt count
      its message quotes, which is `MaxRecursion` and not the number of calls. */
  datatype StoreError =
    | NoLinkWithSlug(slug: string)
    | NoUrlForSlug(slug: string)
    | CouldNotGenerate(attempts: nat)
    | GeneratorError(cause: string)

  /** The outcome of the retry loop and how many generator calls it made. */
  datatype Generation = Generation(result: Result<string, StoreError>, calls: nat)

  /** The outcome of a create: the slug or error, the new contents, and how many
      generator calls were made. */
  datatype Created = Created(result: Result<string, StoreError>, links: Links, calls: nat)

  /** The store invariant: every record sits under its own slug and its total
      equals the sum of its daily counts. */
  ghost predicate Valid(links: Links)
  {
    forall slug :: slug in links ==> links[slug].slug == slug && Consistent(links[slug])
  }

  /** A generator answer the loop must retry on: no error, but the slug is taken. */
  predicate Collides(links: Links, g: Generated)
  {
    g.err.None? && g.slug in links
  }

  /** The record a create stores: the slug, the target verbatim, no visits. */
  function NewLink(slug: string, target: string): (link: Link)
    ensures link.slug == slug && link.target == target
    ensures link.hits == 0 && link.histogram == map[]
    ensures Consistent(link)
  {
    Link(slug, target, 0, map[])
  }

  /** Stores a fresh record under a slug, replacing any record already there. */
  function Put(links: Links, slug: string, target: string): (r: Links)
    ensures r.Keys == links.Keys + {slug}
    ensures r[slug] == NewLink(slug, target)
    ensures forall k :: k in links && k != slug ==> r[k] == links[k]
    ensures slug !in links ==> |r| == |links| + 1
    ensures slug in links ==> |r| == |links|
    ensures Valid(links) ==> Valid(r)
  {
    links[slug := NewLink(slug, target)]
  }

  // ---------------------------------------------------------------------
  // genslug
  // ---------------------------------------------------------------------

  /** The retry loop from counter value `iteration` on. Each round first tests
      the counter against `MaxRecursion`, then makes call number `iteration`,
      stops on an error or a free slug, and otherwise retries. */
  function GenslugFrom(links: Links, gen: Generator, iteration: nat): (r: Generation)
    requires iteration <= MaxCalls
    ensures iteration <= r.calls <= MaxCalls
    ensures forall j :: iteration <= j < r.calls - 1 ==> Collides(links, gen(j))
    ensures r.result.Ok? ==>
              && r.calls > iteration
              && gen(r.calls - 1) == Generated(r.result.value, None)
              && r.result.value !in links
    ensures r.result.Err? ==>
              || (r.result.error == CouldNotGenerate(MaxRecursion)
                  && r.calls == MaxCalls
                  && forall j :: iteration <= j < MaxCalls ==> Collides(links, gen(j)))
              || (r.result.error.GeneratorError?
                  && r.calls > iteration
                  && gen(r.calls - 1).err == Some(r.result.error.cause))
    decreases MaxCalls - iteration
  {
    if iteration > MaxRecursion then
      Generation(Err(CouldNotGenerate(MaxRecursion)), iteration)
    else
      var g := gen(iteration);
      if g.err.Some? then Generation(Err(GeneratorError(g.err.value)), iteration + 1)
      else if g.slug in links then GenslugFrom(links, gen, iteration + 1)
      else Generation(Ok(g.slug), iteration + 1)
  }

  /** `genslug`: ask the generator until it names a slug not in the store, it
      fails, or the retry counter passes `MaxRecursion`. */
  function Genslug(links: Links, gen: Generator): (r: Generation)
    ensures 1 <= r.calls <= MaxCalls
    ensures forall j :: 0 <= j < r.calls - 1 ==> Collides(links, gen(j))
    ensures r.result.Ok? <==> gen(r.calls - 1).err.None? && gen(r.calls - 1).slug !in links
    ensures r.result.Ok? ==> r.result.value == gen(r.calls - 1).slug
    ensures r.result.Err? ==>
              || (r.result.error == CouldNotGenerate(MaxRecursion) && r.calls == MaxCalls
                  && Collides(links, gen(MaxCalls - 1)))
              || (r.result.error.GeneratorError? && gen(r.calls - 1).err == Some(r.result.error.cause))
  {
    GenslugFrom(links, gen, 0)
  }

  /** The loop gives up exactly when all six calls name taken slugs, and then it
      has made six calls although its message says five attempts. */
  lemma GenslugExhaustedIff(links: Links, gen: Generator)
    ensures Genslug(links, gen).result == Err(CouldNotGenerate(MaxRecursion))
            <==> forall j :: 0 <= j < MaxCalls ==> Collides(links, gen(j))
    ensures Genslug(links, gen).result.Err? && Genslug(links, gen).result.error.CouldNotGenerate?
            ==> Genslug(links, gen).calls == 6 && Genslug(links, gen).result.error.attempts == 5
  {
  }

  // ---------------------------------------------------------------------
  // Store operations
  // ---------------------------------------------------------------------

  /** `CreateLink`: a nil or empty slug argument asks `genslug` for a free slug;
      any other slug is used as given, replacing a record already stored under
      it. The new record has the target verbatim and no visits. */
  function CreateLink(links: Links, target: string, slug: Option<string>, gen: Generator): (r: Created)
    // an explicit slug is used verbatim, with no generator call
    ensures slug.Some? && slug.value != "" ==> r.calls == 0 && r.result == Ok(slug.value)
    // otherwise the outcome and the call count are those of the retry loop
    ensures slug.None? || slug.value == "" ==>
              r.result == Genslug(links, gen).result && r.calls == Genslug(links, gen).calls
    ensures slug.None? || slug.value == "" ==> 1 <= r.calls <= MaxCalls
    // on success the slug maps to a fresh record and nothing else changes
    ensures r.result.Ok? ==>
              && r.result.value in r.links
              && r.links[r.result.value] == NewLink(r.result.value, target)
              && r.links.Keys == links.Keys + {r.result.value}
              && forall k :: k in links && k != r.result.value ==> r.links[k] == links[k]
    // a generated slug was never a key, so one record is added and none replaced
    ensures (slug.None? || slug.value == "") && r.result.Ok? ==>
              r.result.value !in links && |r.links| == |links| + 1
    // failures come only from the generator and leave the store alone
    ensures r.result.Err? ==>
              && (slug.None? || slug.value == "")
              && r.links == links
              && (r.result.error.CouldNotGenerate? || r.result.error.GeneratorError?)
    ensures Valid(links) ==> Valid(r.links)
  {
    if slug.None? || slug.value == "" then
      var g := Genslug(links, gen);
      match g.result
      case Err(e) => Created(Err(e), links, g.calls)
      case Ok(s) => Created(Ok(s), Put(links, s, target), g.calls)
    else
      Created(Ok(slug.value), Put(links, slug.value, target), 0)
  }

  /** An explicit slug that is already taken replaces the stored record: the
      store keeps its size, and the record under that slug starts again from
      no visits with the new target. */
  lemma ExplicitCreateOverwrites(links: Links, target: string, slug: string, gen: Generator)
    requires slug != "" && slug in links
    ensures var r := CreateLink(links, target, Some(slug), gen);
            && r.result == Ok(slug)
            && |r.links| == |links|
            && r.links[slug].target == target
            && r.links[slug].hits == 0 && r.links[slug].histogram == map[]
  {
  }

  /** Two creates with generated slugs, one after the other (as the write lock
      serialises concurrent ones), never hand out the same slug, and both
      records are then stored. */
  lemma GeneratedSlugsDistinct(links: Links, target1: string, target2: string, gen1: Generator, gen2: Generator)
    ensures var c1 := CreateLink(links, target1, None, gen1);
            var c2 := CreateLink(c1.links, target2, None, gen2);
            c1.result.Ok? && c2.result.Ok? ==>
              && c1.result.value != c2.result.value
              && c2.links[c1.result.value] == NewLink(c1.result.value, target1)
              && c2.links[c2.result.value] == NewLink(c2.result.value, target2)
  {
  }

  /** Create, get, delete, get: a successful create is visible to both reads,
      and after the delete both reads report the slug as missing. */
  lemma CreateGetDeleteGet(links: Links, target: string, slug: Option<string>, gen: Generator)
    ensures var c := CreateLink(links, target, slug, gen);
            c.result.Ok? ==>
              var s := c.result.value;
              var d := DeleteLink(c.links, s);
              && GetLink(c.links, s) == Ok(NewLink(s, target))
              && GetTarget(c.links, s) == Ok(target)
              && d.0 == None
              && GetLink(d.1, s) == Err(NoLinkWithSlug(s))
              && GetTarget(d.1, s) == Err(NoUrlForSlug(s))
  {
  }

  /** `GetLink`: the record stored under the slug, or an error naming the slug. */
  function GetLink(links: Links, slug: string): (r: Result<Link, StoreError>)
    ensures r.Ok? <==> slug in links
    ensures r.Ok? ==> r.value == links[slug]
    ensures r.Err? ==> r.error == NoLinkWithSlug(slug)
    ensures Valid(links) && r.Ok? ==> r.value.slug == slug && Consistent(r.value)
  {
    if slug in links then Ok(links[slug]) else Err(NoLinkWithSlug(slug))
  }

  /** `GetTarget`: the target stored under the slug, or an error naming the slug. */
  function GetTarget(links: Links, slug: string): (r: Result<string, StoreError>)
    ensures r.Ok? <==> slug in links
    ensures r.Ok? ==> r.value == links[slug].target
    ensures r.Err? ==> r.error == NoUrlForSlug(slug)
  {
    if slug in links then Ok(links[slug].target) else Err(NoUrlForSlug(slug))
  }

  /** `GetTarget` agrees with the target of the record `GetLink` returns. */
  lemma GetTargetAgreesWithGetLink(links: Links, slug: string)
    ensures GetTarget(links, slug).Ok? == GetLink(links, slug).Ok?
    ensures GetLink(links, slug).Ok? ==> GetTarget(links, slug).value == GetLink(links, slug).value.target
  {
  }

  /** `DeleteLink`: removes the slug if present. The returned error is always nil. */
  function DeleteLink(links: Links, slug: string): (r: (Option<StoreError>, Links))
    ensures r.0 == None
    ensures r.1.Keys == links.Keys - {slug}
    ensures forall k :: k in r.1 ==> r.1[k] == links[k]
    ensures slug in links ==> |r.1| == |links| - 1
    ensures slug !in links ==> r.1 == links
    ensures Valid(links) ==> Valid(r.1)
  {
    (None, links - {slug})
  }

  /** Deleting twice is the same as deleting once. */
  lemma DeleteIdempotent(links: Links, slug: string)
    ensures DeleteLink(DeleteLink(links, slug).1, slug) == DeleteLink(links, slug)
  {
  }

  /** `AllLinks`: every stored record once, in the map's iteration order, which
      is left open: each round picks any key not yet visited. */
  method AllLinks(links: Links) returns (r: seq<Link>)
    ensures |r| == |links|
    ensures forall i :: 0 <= i < |r| ==> r[i] in links.Values
    ensures forall k :: k in links ==> links[k] in r
    ensures Valid(links) ==> forall i, j :: 0 <= i < j < |r| ==> r[i].slug != r[j].slug
  {
    r := [];
    var rest := links.Keys;
    while rest != {}
      invariant rest <= links.Keys
      invariant |r| + |rest| == |links|
      invariant forall i :: 0 <= i < |r| ==> r[i] in links.Values
      invariant forall k :: k in links && k !in rest ==> links[k] in r
      invariant Valid(links) ==> forall i :: 0 <= i < |r| ==> r[i].slug in links && r[i].slug !in rest
      invariant Valid(links) ==> forall i, j :: 0 <= i < j < |r| ==> r[i].slug != r[j].slug
      decreases |rest|
    {
      var k :| k in rest;
      r := r + [links[k]];
      rest := rest - {k};
    }
  }

  /** One visit to a record on the given day: the total and that day's count
      go up by one; slug, target and the other days stay as they were. */
  function Hit(link: Link, bucket: string): (r: Link)
    ensures r.slug == link.slug && r.target == link.target
    ensures r.hits == link.hits + 1
    ensures r.histogram.Keys == link.histogram.Keys + {bucket}
    ensures r.histogram[bucket] == CountOn(link.histogram, bucket) + 1
    ensures forall day :: day in link.histogram && day != bucket ==>
              r.histogram[day] == link.histogram[day]
  {
    var h := link.histogram;
    link.(hits := link.hits + 1, histogram := h[bucket := CountOn(h, bucket) + 1])
  }

  /** A visit keeps the total equal to the sum of the daily counts. */
  lemma {:induction false} HitKeepsConsistent(link: Link, bucket: string)
    ensures Consistent(link) ==> Consistent(Hit(link, bucket))
  {
    var h := link.histogram;
    TotalUpdate(h, bucket, CountOn(h, bucket) + 1);
  }

  /** Visits to one record commute: the order of two hits does not matter. */
  lemma HitCommutes(link: Link, day1: string, day2: string)
    ensures Hit(Hit(link, day1), day2) == Hit(Hit(link, day2), day1)
  {
  }

  /** `RegisterHit`: on a stored slug, one visit to its record; on an absent
      slug, nothing, and no record is created. The day bucket stands for the
      formatted clock reading. */
  function RegisterHit(links: Links, slug: string, bucket: string): (r: Links)
    ensures slug !in links ==> r == links
    ensures r.Keys == links.Keys
    ensures forall k :: k in links && k != slug ==> r[k] == links[k]
    ensures slug in links ==> r[slug] == Hit(links[slug], bucket)
    ensures slug in links && Consistent(links[slug]) ==> Consistent(r[slug])
    ensures Valid(links) ==> Valid(r)
  {
    if slug in links then
      HitKeepsConsistent(links[slug], bucket);
      links[slug := Hit(links[slug], bucket)]
    else links
  }

  /** Hits on a store commute, so concurrent visits serialised in either order
      leave the same store. */
  lemma RegisterHitCommutes(links: Links, slug: string, day1: string, day2: string)
    ensures RegisterHit(RegisterHit(links, slug, day1), slug, day2)
            == RegisterHit(RegisterHit(links, slug, day2), slug, day1)
  {
    if slug in links {
      HitCommutes(links[slug], day1, day2);
    }
  }

  /** A run of visits, one per bucket, applied one after another. */
  function RegisterHits(links: Links, slug: string, buckets: seq<string>): (r: Links)
    ensures r.Keys == links.Keys
    ensures Valid(links) ==> Valid(r)
    decreases |buckets|
  {
    if |buckets| == 0 then links
    else RegisterHits(RegisterHit(links, slug, buckets[0]), slug, buckets[1..])
  }

  /** N visits to a stored slug raise its total by exactly N and keep it equal
      to the histogram sum; nothing else changes. */
  lemma {:induction false} RegisterHitsCount(links: Links, slug: string, buckets: seq<string>)
    requires slug in links
    ensures RegisterHits(links, slug, buckets)[slug].hits == links[slug].hits + |buckets|
    ensures Consistent(links[slug]) ==> Consistent(RegisterHits(links, slug, buckets)[slug])
    ensures forall k :: k in links && k != slug ==> RegisterHits(links, slug, buckets)[k] == links[k]
    decreases |buckets|
  {
    if |buckets| != 0 {
      var next := RegisterHit(links, slug, buckets[0]);
      RegisterHitsCount(next, slug, buckets[1..]);
    }
  }
}
