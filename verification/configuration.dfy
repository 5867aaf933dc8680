/** The parts of pkg/types/config.go that the dashboard consults. */
module Configuration {
  import opened Base

  /** `frequency` is the parsed duration, or `None` when `time.ParseDuration` rejects it. */
  datatype Monitoring = Monitoring(frequency: Option<int>, monitor: string, autoResolve: bool)

  datatype SubComponent = SubComponent(slug: string, monitoring: Option<Monitoring>, requiresConfirmation: bool)

  /** `accounts` lists the owners' service accounts, "" for an owner without one. */
  datatype Component = Component(slug: string, subs: seq<SubComponent>, accounts: seq<string>)

  datatype Config = Config(components: seq<Component>)

  /** `GetComponentBySlug`: the first component with the slug. */
  function FindComponent(components: seq<Component>, slug: string): (found: Option<Component>)
    ensures found.Some? <==> exists c :: c in components && c.slug == slug
    ensures found.Some? ==> found.value in components && found.value.slug == slug
  {
    if components == [] then None
    else if components[0].slug == slug then Some(components[0])
    else FindComponent(components[1..], slug)
  }

  /** `GetSubComponentBySlug`: the first sub-component with the slug. */
  function FindSub(subs: seq<SubComponent>, slug: string): (found: Option<SubComponent>)
    ensures found.Some? <==> exists s :: s in subs && s.slug == slug
    ensures found.Some? ==> found.value in subs && found.value.slug == slug
  {
    if subs == [] then None
    else if subs[0].slug == slug then Some(subs[0])
    else FindSub(subs[1..], slug)
  }

  /** Both lookups take the first match. */
  lemma {:induction false} FirstComponent(components: seq<Component>, slug: string, i: nat)
    requires i < |components| && components[i].slug == slug && forall k | 0 <= k < i :: components[k].slug != slug
    ensures FindComponent(components, slug) == Some(components[i])
  {
    if i > 0 {
      FirstComponent(components[1..], slug, i - 1);
    }
  }

  lemma {:induction false} FirstSub(subs: seq<SubComponent>, slug: string, i: nat)
    requires i < |subs| && subs[i].slug == slug && forall k | 0 <= k < i :: subs[k].slug != slug
    ensures FindSub(subs, slug) == Some(subs[i])
  {
    if i > 0 {
      FirstSub(subs[1..], slug, i - 1);
    }
  }

  lemma {:induction false} ComponentIndex(components: seq<Component>, slug: string) returns (i: nat)
    requires FindComponent(components, slug).Some?
    ensures i < |components| && components[i].slug == slug && forall k | 0 <= k < i :: components[k].slug != slug
  {
    if components[0].slug == slug {
      i := 0;
    } else {
      i := ComponentIndex(components[1..], slug);
      i := i + 1;
    }
  }

  lemma {:induction false} SubIndex(subs: seq<SubComponent>, slug: string) returns (i: nat)
    requires FindSub(subs, slug).Some?
    ensures i < |subs| && subs[i].slug == slug && forall k | 0 <= k < i :: subs[k].slug != slug
  {
    if subs[0].slug == slug {
      i := 0;
    } else {
      i := SubIndex(subs[1..], slug);
      i := i + 1;
    }
  }

  /** Both lookups of a slug pair. */
  function Lookup(cfg: Config, c: string, s: string): Option<SubComponent> {
    match FindComponent(cfg.components, c)
    case None => None
    case Some(component) => FindSub(component.subs, s)
  }
}
