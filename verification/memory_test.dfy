/** The behaviours the store's own tests exercise, stated for every input they
    stand for: any target, and any draws the UUID generator may make. */
module MemoryTest {
  import opened Wrappers
  import opened Models
  import opened Slug
  import opened Memory

  /** The test generator whose `Random` always answers `test` without error. */
  function StaticSlugger(): Generator
  {
    (n: nat) => Generated("test", None)
  }

  /** Create on an empty store with the default generator, list, get, delete,
      list again and ask for the target: one record with the target, then none,
      then an error. The slug is never empty. */
  method Roundtrip(draws: nat -> UuidDraw, target: string)
    returns (slug: string, before: seq<Link>, fetched: Result<Link, StoreError>,
             after: seq<Link>, final: Result<string, StoreError>)
    requires draws(0).Drawn?
    ensures |slug| == SlugLength
    ensures |before| == 1 && before[0] == NewLink(slug, target)
    ensures fetched.Ok? && fetched.value.target == target
    ensures |after| == 0
    ensures final == Err(NoUrlForSlug(slug))
  {
    var created := CreateLink(map[], target, None, UuidGenerator(draws));
    assert UuidGenerator(draws)(0) == UuidRandom(draws(0));
    slug := created.result.value;
    before := AllLinks(created.links);
    fetched := GetLink(created.links, slug);
    var deleted := DeleteLink(created.links, slug);
    after := AllLinks(deleted.1);
    final := GetTarget(deleted.1, slug);
  }

  /** Create on an empty store and register two hits, on any days: the record
      keeps its target and counts two visits, matching its histogram. */
  lemma HitRegistering(draws: nat -> UuidDraw, target: string, day1: string, day2: string)
    requires draws(0).Drawn?
    ensures var created := CreateLink(map[], target, None, UuidGenerator(draws));
            && created.result.Ok?
            && var slug := created.result.value;
               var hit := RegisterHit(RegisterHit(created.links, slug, day1), slug, day2);
               && GetLink(hit, slug).Ok?
               && GetLink(hit, slug).value.target == target
               && GetLink(hit, slug).value.hits == 2
               && Consistent(GetLink(hit, slug).value)
  {
  }

  /** With the static generator the first create gets `test` after one call;
      the second finds every candidate taken and fails after six calls with the
      five-attempt message, leaving the store as it was. */
  lemma SlugGenRecursion(target: string)
    ensures var first := CreateLink(map[], target, None, StaticSlugger());
            && first.result == Ok("test")
            && first.calls == 1
            && var second := CreateLink(first.links, target, None, StaticSlugger());
               && second.result == Err(CouldNotGenerate(5))
               && second.calls == 6
               && second.links == first.links
  {
  }
}
