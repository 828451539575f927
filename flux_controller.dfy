/** The flux controller: creates, deletes and re-points RSS fluxes, keeping
    the store and its own feed emitter in step, and fans every new item of
    a flux out to the webhooks bound to it. */
module FluxController {
  import opened Wrappers
  import opened Strings
  import opened FeedEmitter
  import opened Stores

  /** The refresh interval every flux is registered with. */
  const FluxRefresh := 2000

  /** The event a flux's items are emitted under: `flux<id>`. */
  function EventName(id: nat): (name: string)
    ensures |name| > 4 && name[..4] == "flux"
  {
    "flux" + DecimalString(id)
  }

  /** Distinct fluxes have distinct events. */
  lemma EventNameInjective(m: nat, n: nat)
    requires EventName(m) == EventName(n)
    ensures m == n
  {
    assert EventName(m)[4..] == DecimalString(m);
    assert EventName(n)[4..] == DecimalString(n);
    DecimalInjective(m, n);
  }

  /** The messages of the HttpExceptions (status 403 each). */
  const UrlRequiredMessage := "A url is required"
  const WrongUrlMessage := "Wrong url"
  const IdRequiredMessage := "An id is required"
  const IdNotNumberMessage := "Flux id has to be a number"
  const UnknownIdMessage := "This id doesn't exist"
  const MissingIdMessage := "Missing id"
  const MissingUrlMessage := "Missing url"
  const WrongIdMessage := "Wrong id"

  datatype HttpError =
    | Forbidden(message: string)   // HttpException with HttpStatus.FORBIDDEN
    | StoreRejected                // the store refused a text id where a number is required

  /** The `id` field of a request body: absent, a number or a string. */
  datatype IdField = NoId | IdNumber(n: int) | IdText(s: string)

  /** `!!request.body.id`. */
  predicate IdGiven(id: IdField): (b: bool)
    // the falsy ids are a missing field, the number 0 and the empty string
    ensures b <==> id != NoId && id != IdNumber(0) && id != IdText("")
  {
    match id
    case NoId => false
    case IdNumber(n) => n != 0
    case IdText(s) => s != ""
  }

  /** `!!request.body.url`, the field being absent or a string. */
  predicate UrlGiven(url: Option<string>): (b: bool)
    ensures b <==> url != None && url != Some("")
  {
    url.Some? && url.value != ""
  }

  /** `parseInt(request.body.id)`; `None` is NaN. A number goes through its
      decimal notation and comes back unchanged. */
  function ParsedId(id: IdField): (r: Option<int>)
    ensures id.IdNumber? ==> r == Some(id.n)
    ensures id.IdText? ==> r == ParseInt(id.s)
  {
    match id
    case NoId => None
    case IdNumber(n) => Some(n)
    case IdText(s) => ParseInt(s)
  }

  /** The number `flux.id == request.body.id` compares with. */
  function LooseId(id: IdField): (r: Option<int>)
    ensures id.IdNumber? ==> r == Some(id.n)
    ensures id.IdText? ==> r == IntegerText(id.s)
  {
    match id
    case NoId => None
    case IdNumber(n) => Some(n)
    case IdText(s) => IntegerText(s)
  }

  /** `exist`: some stored flux has this id. */
  predicate Exists(fluxIds: set<nat>, id: Option<int>): (b: bool)
    ensures b <==> exists k :: k in fluxIds && id == Some(k as int)
  {
    id.Some? && id.value >= 0 && id.value as nat in fluxIds
  }

  /** The checks of `create`, in order. */
  function CreateCheck(url: Option<string>, isUrl: string -> bool): (r: Option<HttpError>)
    ensures r.None? <==> UrlGiven(url) && isUrl(url.value)
    ensures !UrlGiven(url) ==> r == Some(Forbidden(UrlRequiredMessage))
    ensures UrlGiven(url) && !isUrl(url.value) ==> r == Some(Forbidden(WrongUrlMessage))
  {
    if !UrlGiven(url) then Some(Forbidden(UrlRequiredMessage))
    else if !isUrl(url.value) then Some(Forbidden(WrongUrlMessage))
    else None
  }

  /** The checks of `delete`, in order: the id of the flux to delete. */
  function DeleteCheck(id: IdField, fluxIds: set<nat>): (r: Result<nat, HttpError>)
    ensures r.Ok? <==> IdGiven(id) && Exists(fluxIds, ParsedId(id))
    ensures r.Ok? ==> r.value as int == ParsedId(id).value && r.value in fluxIds
    ensures !IdGiven(id) ==> r == Err(Forbidden(IdRequiredMessage))
    ensures IdGiven(id) && ParsedId(id).None? ==> r == Err(Forbidden(IdNotNumberMessage))
    ensures IdGiven(id) && ParsedId(id).Some? && !Exists(fluxIds, ParsedId(id))
      ==> r == Err(Forbidden(UnknownIdMessage))
  {
    if !IdGiven(id) then Err(Forbidden(IdRequiredMessage))
    else
      var fluxId := ParsedId(id);
      if fluxId.None? then Err(Forbidden(IdNotNumberMessage))
      else if !Exists(fluxIds, fluxId) then Err(Forbidden(UnknownIdMessage))
      else Ok(fluxId.value as nat)
  }

  /** The checks of `update`, in order, and the store's refusal of a text
      id when the flux is read: the id of the flux to re-point. */
  function UpdateCheck(id: IdField, url: Option<string>, fluxIds: set<nat>, isUrl: string -> bool)
    : (r: Result<nat, HttpError>)
    ensures r.Ok? <==>
      IdGiven(id) && UrlGiven(url) && Exists(fluxIds, LooseId(id)) && isUrl(url.value) && id.IdNumber?
    ensures r.Ok? ==> r.value as int == id.n && r.value in fluxIds
    ensures !IdGiven(id) ==> r == Err(Forbidden(MissingIdMessage))
    ensures IdGiven(id) && !UrlGiven(url) ==> r == Err(Forbidden(MissingUrlMessage))
    ensures IdGiven(id) && UrlGiven(url) && !Exists(fluxIds, LooseId(id)) ==> r == Err(Forbidden(WrongIdMessage))
    ensures IdGiven(id) && UrlGiven(url) && Exists(fluxIds, LooseId(id)) && !isUrl(url.value)
      ==> r == Err(Forbidden(WrongUrlMessage))
    ensures IdGiven(id) && UrlGiven(url) && Exists(fluxIds, LooseId(id)) && isUrl(url.value) && id.IdText?
      ==> r == Err(StoreRejected)
  {
    if !IdGiven(id) then Err(Forbidden(MissingIdMessage))
    else if !UrlGiven(url) then Err(Forbidden(MissingUrlMessage))
    else if !Exists(fluxIds, LooseId(id)) then Err(Forbidden(WrongIdMessage))
    else if !isUrl(url.value) then Err(Forbidden(WrongUrlMessage))
    else match id
      case IdNumber(n) => Ok(n as nat)
      case _ => Err(StoreRejected)
  }

  /** The ids `delete` is exercised with: a word is not a number and `-1`,
      number or text, names no flux. */
  lemma DeleteRejectsBadIds(fluxIds: set<nat>)
    ensures DeleteCheck(IdText("abc"), fluxIds) == Err(Forbidden(IdNotNumberMessage))
    ensures DeleteCheck(IdNumber(-1), fluxIds) == Err(Forbidden(UnknownIdMessage))
    ensures DeleteCheck(IdText("-1"), fluxIds) == Err(Forbidden(UnknownIdMessage))
  {
    ParseIntNoDigitFirst("abc");
    assert DecimalString(1) == "1" && "-" + "1" + "" == "-1";
    ParseIntDecimalPrefix("-", 1, "");
  }

  /** The requests `update` is exercised with: a word with no url lacks the
      url, and `-1` names no flux. */
  lemma UpdateRejectsBadIds(fluxIds: set<nat>, isUrl: string -> bool)
    ensures UpdateCheck(IdText("abc"), None, fluxIds, isUrl) == Err(Forbidden(MissingUrlMessage))
    ensures UpdateCheck(IdText("-1"), Some("http://toto.org"), fluxIds, isUrl) == Err(Forbidden(WrongIdMessage))
  {
    assert IntegerText("-1") == Some(-1) by {
      assert "-1"[1..] == "1";
    }
  }

  /** `delete` accepts the decimal text of an existing id as that id. */
  lemma DeleteAcceptsDecimalText(n: nat, fluxIds: set<nat>)
    requires n in fluxIds
    ensures DeleteCheck(IdText(DecimalString(n)), fluxIds) == Ok(n)
  {
    ParseIntDecimalPrefix("", n, "");
    assert "" + DecimalString(n) + "" == DecimalString(n);
  }

  /** `delete` reads a hexadecimal text id as parseInt does: `0x10` deletes
      the flux 16. */
  lemma DeleteAcceptsHexText(x: char, h: string, n: nat, fluxIds: set<nat>)
    requires x == 'x' || x == 'X'
    requires |h| > 0 && IsRadixDigits(h, 16) && n == RadixValue(h, 16)
    requires n in fluxIds
    ensures DeleteCheck(IdText(['0', x] + h), fluxIds) == Ok(n)
  {
    ParseIntHexPrefix("", x, h, "", n);
    assert "" + (['0', x] + h + "") == ['0', x] + h;
  }

  /** `update` with the decimal text of an existing id passes every check
      of the controller, then fails when the flux is read. */
  lemma UpdateRejectsDecimalText(n: nat, url: string, fluxIds: set<nat>, isUrl: string -> bool)
    requires n in fluxIds && url != "" && isUrl(url)
    ensures UpdateCheck(IdText(DecimalString(n)), Some(url), fluxIds, isUrl) == Err(StoreRejected)
  {
    IntegerTextDecimal(n);
  }

  /** A new item of a feed. */
  datatype Item = Item(title: string, description: Option<string>, link: Option<string>)

  /** One embed of a webhook message. */
  datatype Embed = Embed(title: string, kind: string, description: Option<string>, url: Option<string>)

  /** The JSON body posted to a webhook: `{ embeds: [...] }`. */
  datatype PostBody = PostBody(embeds: seq<Embed>)

  /** The body posted for an item: one rich embed of its title,
      description and link. */
  function MessageOf(item: Item): (body: PostBody)
    ensures |body.embeds| == 1 && body.embeds[0].kind == "rich"
    ensures body.embeds[0].title == item.title && body.embeds[0].description == item.description
    ensures body.embeds[0].url == item.link
  {
    PostBody([Embed(item.title, "rich", item.description, item.link)])
  }

  /** One POST per webhook, in order, whatever the outcome of the others. */
  function Fanout(hooks: seq<Webhook>, body: PostBody, post: (string, PostBody) -> bool)
    : (attempts: seq<PostAttempt>)
    ensures |attempts| == |hooks|
    ensures forall i :: 0 <= i < |hooks| ==>
      attempts[i] == PostAttempt(hooks[i], body, post(hooks[i].url, body))
    decreases |hooks|
  {
    if |hooks| == 0 then []
    else
      var last := hooks[|hooks| - 1];
      Fanout(hooks[..|hooks| - 1], body, post) + [PostAttempt(last, body, post(last.url, body))]
  }

  /** Posting to the next webhook of the list adds its attempt. */
  lemma FanoutNext(hooks: seq<Webhook>, i: nat, body: PostBody, post: (string, PostBody) -> bool)
    requires i < |hooks|
    ensures Fanout(hooks[..i + 1], body, post)
         == Fanout(hooks[..i], body, post) + [PostAttempt(hooks[i], body, post(hooks[i].url, body))]
  {
    assert hooks[..i + 1][..i] == hooks[..i];
  }

  /** The listener `onNewItem(flux)` creates: it keeps the flux it was made for. */
  datatype Handler = NewItemHandler(flux: Flux)

  /** One POST of the fan-out and whether it succeeded. */
  datatype PostAttempt = PostAttempt(webhook: Webhook, body: PostBody, published: bool)

  class FluxController {
    const store: Store
    const feeder: Emitter<Handler>

    constructor ()
      ensures fresh(store) && fresh(feeder) && store.Valid()
      ensures store.fluxes == map[] && store.bindings == [] && store.articles == [] && store.deliveries == {}
      ensures feeder.feeds == [] && feeder.listenerTable == map[]
    {
      store := new Store();
      feeder := new Emitter();
    }

    /** create: stores the flux, registers its url under `flux<id>` and
        attaches one new-item listener to that event. `isUrl` is whether
        the URL constructor accepts the string. */
    method Create(url: Option<string>, isUrl: string -> bool) returns (r: Result<Flux, HttpError>)
      requires store.Valid()
      modifies store, feeder
      ensures store.Valid()
      ensures r.Err? <==> CreateCheck(url, isUrl).Some?
      ensures r.Err? ==> r.error == CreateCheck(url, isUrl).value
      ensures r.Err? ==> unchanged(store) && unchanged(feeder)
      ensures r.Ok? ==> r.value == Flux(old(store.nextFluxId), url.value) && r.value.id !in old(store.fluxes)
      ensures r.Ok? ==> store.fluxes == old(store.fluxes)[r.value.id := url.value]
      ensures r.Ok? ==> store.nextFluxId == old(store.nextFluxId) + 1
      ensures r.Ok? ==> feeder.feeds == WithoutFeed(old(feeder.feeds), url.value, EventName(r.value.id))
                                        + [FeedConfig(url.value, FluxRefresh, EventName(r.value.id))]
      ensures r.Ok? ==> feeder.listenerTable
                        == Attached(old(feeder.listenerTable), EventName(r.value.id), [NewItemHandler(r.value)])
      ensures store.bindings == old(store.bindings) && store.articles == old(store.articles)
      ensures store.deliveries == old(store.deliveries) && store.nextArticleId == old(store.nextArticleId)
    {
      var check := CreateCheck(url, isUrl);
      if check.Some? {
        return Err(check.value);
      }
      var flux := store.CreateFlux(url.value);
      var event := EventName(flux.id);
      feeder.Add(FeedConfig(flux.url, FluxRefresh, event));
      feeder.On(event, NewItemHandler(flux));
      r := Ok(flux);
    }

    /** delete: once the id is checked, unbinds every webhook from the flux,
        removes the deliveries of each of its articles, its articles and the
        flux, then drops the first feed with its url. Listeners stay. */
    method Delete(id: IdField) returns (r: Result<Flux, HttpError>)
      requires store.Valid()
      modifies store, feeder
      ensures store.Valid()
      ensures r.Err? ==> DeleteCheck(id, old(store.fluxes.Keys)) == Err(r.error)
      ensures r.Err? ==> unchanged(store) && unchanged(feeder)
      ensures r.Ok? ==> DeleteCheck(id, old(store.fluxes.Keys)) == Ok(r.value.id)
      ensures r.Ok? ==> r.value == Flux(r.value.id, old(store.fluxes)[r.value.id])
      ensures r.Ok? ==> store.fluxes == old(store.fluxes) - {r.value.id}
      ensures r.Ok? ==> store.bindings == Unbound(old(store.bindings), r.value.id)
      ensures r.Ok? ==> store.articles == ArticlesNotOf(old(store.articles), r.value.id)
      ensures r.Ok? ==> store.deliveries
                        == DeliveriesNotOf(old(store.deliveries), ArticleIds(ArticlesOf(old(store.articles), r.value.id)))
      ensures r.Ok? ==> feeder.feeds == WithoutFirstUrl(old(feeder.feeds), r.value.url)
      ensures store.nextFluxId == old(store.nextFluxId) && store.nextArticleId == old(store.nextArticleId)
      ensures feeder.listenerTable == old(feeder.listenerTable)
    {
      var check := DeleteCheck(id, store.fluxes.Keys);
      if check.Err? {
        return Err(check.error);
      }
      var fluxId := check.value;

      UnbindAll(fluxId);
      DeleteDeliveriesOfArticles(fluxId);
      var _ := store.DeleteArticlesOf(fluxId);

      var deleted := store.DeleteFlux(fluxId);
      feeder.Remove(deleted.value.url);
      r := Ok(deleted.value);
    }

    /** The first loop of delete: `delete_hook(id, hook.id)` for every
        webhook bound to the flux. */
    method UnbindAll(fluxId: nat)
      requires store.Valid()
      modifies store
      ensures store.Valid()
      ensures store.bindings == Unbound(old(store.bindings), fluxId)
      ensures store.fluxes == old(store.fluxes) && store.nextFluxId == old(store.nextFluxId)
      ensures store.articles == old(store.articles) && store.nextArticleId == old(store.nextArticleId)
      ensures store.deliveries == old(store.deliveries)
    {
      var hooks := store.GetHooks(fluxId);
      UnbindNone(store.bindings, fluxId);
      assert WebhookIds(hooks[..0]) == {};
      var i := 0;
      while i < |hooks|
        invariant 0 <= i <= |hooks|
        invariant store.Valid()
        invariant store.bindings == WithoutWebhooks(old(store.bindings), fluxId, WebhookIds(hooks[..i]))
        invariant store.fluxes == old(store.fluxes) && store.nextFluxId == old(store.nextFluxId)
        invariant store.articles == old(store.articles) && store.nextArticleId == old(store.nextArticleId)
        invariant store.deliveries == old(store.deliveries)
      {
        var _ := store.DeleteHook(fluxId, hooks[i].id);
        UnbindOneMore(old(store.bindings), fluxId, WebhookIds(hooks[..i]), hooks[i].id);
        WebhookIdsPrefix(hooks, i);
        i := i + 1;
      }
      assert hooks[..i] == hooks;
      UnbindAllBound(old(store.bindings), fluxId, WebhookIds(hooks));
    }

    /** The second loop of delete: `deleteDeleveriesOf(article.id)` for
        every article of the flux. */
    method DeleteDeliveriesOfArticles(fluxId: nat)
      requires store.Valid()
      modifies store
      ensures store.Valid()
      ensures store.deliveries == DeliveriesNotOf(old(store.deliveries), ArticleIds(ArticlesOf(store.articles, fluxId)))
      ensures store.fluxes == old(store.fluxes) && store.nextFluxId == old(store.nextFluxId)
      ensures store.articles == old(store.articles) && store.nextArticleId == old(store.nextArticleId)
      ensures store.bindings == old(store.bindings)
    {
      var articles := store.GetArticlesSentBy(fluxId);
      var i := 0;
      while i < |articles|
        invariant 0 <= i <= |articles|
        invariant store.Valid()
        invariant store.deliveries == DeliveriesNotOf(old(store.deliveries), ArticleIds(articles[..i]))
        invariant store.fluxes == old(store.fluxes) && store.nextFluxId == old(store.nextFluxId)
        invariant store.articles == old(store.articles) && store.nextArticleId == old(store.nextArticleId)
        invariant store.bindings == old(store.bindings)
      {
        var _ := store.DeleteDeliveriesOf(articles[i].id);
        DeliveriesNotOfMore(old(store.deliveries), ArticleIds(articles[..i]), articles[i].id);
        ArticleIdsPrefix(articles, i);
        i := i + 1;
      }
      assert articles[..i] == articles;
    }

    /** update: once the checks pass and the flux is read, the emitter drops
        the first feed with the old url and registers the new url under the
        unchanged event `flux<id>`, so the listener attached by create keeps
        serving the flux; then the store takes the new url. */
    method Update(id: IdField, url: Option<string>, isUrl: string -> bool) returns (r: Result<Flux, HttpError>)
      requires store.Valid()
      modifies store, feeder
      ensures store.Valid()
      ensures r.Err? ==> UpdateCheck(id, url, old(store.fluxes.Keys), isUrl) == Err(r.error)
      ensures r.Err? ==> unchanged(store) && unchanged(feeder)
      ensures r.Ok? ==> UpdateCheck(id, url, old(store.fluxes.Keys), isUrl) == Ok(r.value.id)
      ensures r.Ok? ==> r.value == Flux(r.value.id, url.value)
      ensures r.Ok? ==> store.fluxes == old(store.fluxes)[r.value.id := url.value]
      ensures r.Ok? ==> feeder.feeds == WithoutFeed(WithoutFirstUrl(old(feeder.feeds), old(store.fluxes)[r.value.id]),
                                                    url.value, EventName(r.value.id))
                                        + [FeedConfig(url.value, FluxRefresh, EventName(r.value.id))]
      ensures feeder.listenerTable == old(feeder.listenerTable)
      ensures store.bindings == old(store.bindings) && store.articles == old(store.articles)
      ensures store.deliveries == old(store.deliveries)
      ensures store.nextFluxId == old(store.nextFluxId) && store.nextArticleId == old(store.nextArticleId)
    {
      var check := UpdateCheck(id, url, store.fluxes.Keys, isUrl);
      if check.Err? {
        return Err(check.error);
      }
      var fluxId := check.value;
      var oldFlux := store.GetFlux(fluxId);
      feeder.Remove(oldFlux.value.url);
      feeder.Add(FeedConfig(url.value, FluxRefresh, EventName(oldFlux.value.id)));
      var updated := store.UpdateFlux(fluxId, url.value);
      r := Ok(updated.value);
    }

    /** The listener made by `onNewItem(flux)`, run on one item: it stores
        the article, then for each webhook bound to the flux, in order, it
        records a delivery and posts the message; `post(url, body)` is
        whether the POST succeeded, and a failed one does not stop the loop. */
    method HandleNewItem(flux: Flux, item: Item, post: (string, PostBody) -> bool)
      returns (attempts: seq<PostAttempt>)
      requires store.Valid()
      modifies store
      ensures store.Valid()
      ensures var article := Article(old(store.nextArticleId), item.title, item.description, item.link, flux.id);
        && store.articles == old(store.articles) + [article]
        && store.deliveries == old(store.deliveries) + DeliveriesTo(article.id, BoundWebhooks(old(store.bindings), flux.id))
      ensures var hooks := BoundWebhooks(old(store.bindings), flux.id);
        && |attempts| == |hooks|
        && forall i :: 0 <= i < |hooks| ==>
             attempts[i] == PostAttempt(hooks[i], MessageOf(item), post(hooks[i].url, MessageOf(item)))
      ensures store.fluxes == old(store.fluxes) && store.bindings == old(store.bindings)
      ensures store.nextFluxId == old(store.nextFluxId) && store.nextArticleId == old(store.nextArticleId) + 1
    {
      var article := store.CreateArticle(item.title, flux.id, item.description, item.link);
      var hooks := store.GetHooks(flux.id);
      attempts := Deliver(article.id, hooks, MessageOf(item), post);
    }

    /** The loop of the new-item listener: for each webhook, a delivery of
        the article and a POST of the body to the webhook's url. */
    method Deliver(articleId: nat, hooks: seq<Webhook>, body: PostBody, post: (string, PostBody) -> bool)
      returns (attempts: seq<PostAttempt>)
      requires store.Valid()
      modifies store
      ensures store.Valid()
      ensures store.deliveries == old(store.deliveries) + DeliveriesTo(articleId, hooks)
      ensures attempts == Fanout(hooks, body, post)
      ensures store.fluxes == old(store.fluxes) && store.bindings == old(store.bindings)
      ensures store.articles == old(store.articles)
      ensures store.nextFluxId == old(store.nextFluxId) && store.nextArticleId == old(store.nextArticleId)
    {
      attempts := [];
      var i := 0;
      while i < |hooks|
        invariant 0 <= i <= |hooks|
        invariant store.Valid()
        invariant store.deliveries == old(store.deliveries) + DeliveriesTo(articleId, hooks[..i])
        invariant attempts == Fanout(hooks[..i], body, post)
        invariant store.fluxes == old(store.fluxes) && store.bindings == old(store.bindings)
        invariant store.articles == old(store.articles)
        invariant store.nextFluxId == old(store.nextFluxId) && store.nextArticleId == old(store.nextArticleId)
      {
        var _ := store.CreateDelivery(hooks[i].id, articleId);
        var published := post(hooks[i].url, body);
        attempts := attempts + [PostAttempt(hooks[i], body, published)];
        DeliveriesToNext(articleId, hooks, i);
        FanoutNext(hooks, i, body, post);
        i := i + 1;
      }
      assert hooks[..i] == hooks;
    }
  }
}
