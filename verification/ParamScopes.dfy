/** What holds of the messages a parameter may appear in, across the drafts. */
module ParamScopes {
  import opened Options
  import opened Bytes
  import opened ParamWire
  import opened Params

  const SUBSCRIBE: Scopes := 0x1
  const PUBLISH: Scopes := 0x4
  const PUBLISH_OK: Scopes := 0x8
  const SUBSCRIBE_TRACKS: Scopes := 0x1000
  const UPDATE_SUBSCRIPTION: Scopes := 0x4000
  /** Every kind of REQUEST_UPDATE. */
  const UPDATES: Scopes := 0x7C000
  /** Every request and update. */
  const REQUESTS: Scopes := 0x7D555

  function In(typ: u64, ver: Ver): Scopes {
    if RuleFor(typ).Some? then Scope(RuleFor(typ).value, ver) else 0
  }

  /** In draft-19 SUBSCRIBE_TRACKS takes every parameter SUBSCRIBE takes. */
  lemma TracksTakeAll(typ: u64)
    ensures In(typ, D19) & SUBSCRIBE != 0 ==> In(typ, D19) & SUBSCRIBE_TRACKS != 0
  {
  }

  /** EXPIRES and LARGEST_OBJECT go in no request but PUBLISH. */
  lemma AnswersOnly(typ: u64, ver: Ver)
    requires typ == 0x08 || typ == 0x09
    ensures In(typ, ver) & (REQUESTS - PUBLISH) == 0 && In(typ, ver) & PUBLISH != 0
  {
  }

  /** PUBLISH_OK carries nothing but EXPIRES from draft-22 on. */
  lemma PublishOkCarries(typ: u64, ver: Ver)
    requires ver == D23 || ver == D22
    ensures typ != 0x08 ==> In(typ, ver) & PUBLISH_OK == 0
  {
    if typ < 0x0A {
    } else if typ < 0x22 {
    } else {
    }
  }

  /** A token may come with every request. */
  lemma TokensAnywhere(ver: Ver)
    ensures In(0x03, ver) == REQUESTS
  {
  }

  /** Before draft-23 a delivery timeout may come with every kind of update. */
  lemma TimeoutsUpdate(typ: u64, ver: Ver)
    requires typ == 0x02 || typ == 0x06
    ensures In(typ, ver) & UPDATES == if ver == D23 then UPDATE_SUBSCRIPTION else UPDATES
  {
  }

  /** Switching belongs to a subscription, from draft-22 on. */
  lemma SwitchesSubscriptions(typ: u64, ver: Ver)
    requires typ == 0x24 || typ == 0x41
    ensures In(typ, ver) == if ver == D23 || ver == D22 then SUBSCRIBE | UPDATE_SUBSCRIPTION else 0
  {
  }

  /** FORWARD and PAUSED share their places: no draft has both. */
  lemma ForwardOrPaused(ver: Ver)
    ensures In(0x10, ver) & In(0x11, ver) == 0 && (In(0x10, ver) | In(0x11, ver)) & (SUBSCRIBE | PUBLISH) == SUBSCRIBE | PUBLISH
  {
  }

  /** Each repeatable filter has the places of the others. */
  lemma FiltersAlike(a: u64, b: u64, ver: Ver)
    requires 0x25 <= a <= 0x28 && 0x25 <= b <= 0x28
    ensures In(a, ver) == In(b, ver)
  {
  }

  /** A list inside a list is one a FETCH, whose scope is 0x10, may hold. */
  lemma FillIsFetchList(ctx: Scopes, s: seq<u8>)
    requires Depth(D23, ctx) == 1
    ensures var list, g := TakeParams(D23, 0x10, s), TakeValue(D23, ctx, Fill23Enc, s);
            && (list.Got? <==> g.Got?) && (list.Short? <==> g.Short?)
            && (g.Got? ==> g.n == list.n && g.v == Fill23(s[..g.n]))
  {
    hide TakeParams;
  }
}
