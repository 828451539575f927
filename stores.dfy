/** The database tables the flux controller works on, as in-memory tables:
    fluxes, the bindings of webhooks to fluxes (the hooks table), articles
    and deliveries. Each store method is the single query of the service
    method it is named after. */
module Stores {
  import opened Wrappers

  /** A webhook: where an article is posted. */
  datatype Webhook = Webhook(id: nat, url: string)

  /** A row of the hooks table: `webhook` is bound to the flux `fluxId`. */
  datatype Binding = Binding(fluxId: nat, webhook: Webhook)

  /** An RSS flux. */
  datatype Flux = Flux(id: nat, url: string)

  /** An article received from the flux `sourceId`. */
  datatype Article = Article(id: nat, title: string, description: Option<string>,
                             url: Option<string>, sourceId: nat)

  /** A row of the deliveries table: the article `contentId` was sent to
      the webhook `receiverId`. The pair is the row's key. */
  datatype Delivery = Delivery(contentId: nat, receiverId: nat)

  /** The webhooks bound to a flux, in table order. */
  function BoundWebhooks(bindings: seq<Binding>, fluxId: nat): (hooks: seq<Webhook>)
    ensures |hooks| <= |bindings|
    ensures forall w :: w in hooks <==> Binding(fluxId, w) in bindings
    decreases |bindings|
  {
    if |bindings| == 0 then []
    else
      var rest := BoundWebhooks(bindings[1..], fluxId);
      assert forall b :: b in bindings <==> b == bindings[0] || b in bindings[1..];
      if bindings[0].fluxId == fluxId then [bindings[0].webhook] + rest else rest
  }

  /** The bindings left once the webhooks with an id in `ids` are unbound
      from the flux. */
  function WithoutWebhooks(bindings: seq<Binding>, fluxId: nat, ids: set<nat>): (r: seq<Binding>)
    ensures |r| <= |bindings|
    ensures forall b :: b in r <==> b in bindings && !(b.fluxId == fluxId && b.webhook.id in ids)
    decreases |bindings|
  {
    if |bindings| == 0 then []
    else
      var rest := WithoutWebhooks(bindings[1..], fluxId, ids);
      assert forall b :: b in bindings <==> b == bindings[0] || b in bindings[1..];
      if bindings[0].fluxId == fluxId && bindings[0].webhook.id in ids then rest else [bindings[0]] + rest
  }

  /** The bindings of every flux but `fluxId`. */
  function Unbound(bindings: seq<Binding>, fluxId: nat): (r: seq<Binding>)
    ensures forall b :: b in r <==> b in bindings && b.fluxId != fluxId
    decreases |bindings|
  {
    if |bindings| == 0 then []
    else
      var rest := Unbound(bindings[1..], fluxId);
      assert forall b :: b in bindings <==> b == bindings[0] || b in bindings[1..];
      if bindings[0].fluxId == fluxId then rest else [bindings[0]] + rest
  }

  /** A flux's bindings and the others make up the whole table. */
  lemma {:induction false} BindingsPartition(bindings: seq<Binding>, fluxId: nat)
    ensures |BoundWebhooks(bindings, fluxId)| + |Unbound(bindings, fluxId)| == |bindings|
    decreases |bindings|
  {
    if |bindings| > 0 {
      BindingsPartition(bindings[1..], fluxId);
    }
  }

  /** Unbinding one more webhook from what is left. */
  lemma {:induction false} UnbindOneMore(bindings: seq<Binding>, fluxId: nat, ids: set<nat>, id: nat)
    ensures WithoutWebhooks(WithoutWebhooks(bindings, fluxId, ids), fluxId, {id})
         == WithoutWebhooks(bindings, fluxId, ids + {id})
    decreases |bindings|
  {
    if |bindings| > 0 {
      UnbindOneMore(bindings[1..], fluxId, ids, id);
    }
  }

  /** Unbinding no webhook leaves the table as it is. */
  lemma {:induction false} UnbindNone(bindings: seq<Binding>, fluxId: nat)
    ensures WithoutWebhooks(bindings, fluxId, {}) == bindings
    decreases |bindings|
  {
    if |bindings| > 0 {
      UnbindNone(bindings[1..], fluxId);
      assert bindings == [bindings[0]] + bindings[1..];
    }
  }

  /** Unbinding every webhook bound to a flux leaves exactly the bindings of
      the other fluxes. */
  lemma {:induction false} UnbindAllBound(bindings: seq<Binding>, fluxId: nat, ids: set<nat>)
    requires forall w :: w in BoundWebhooks(bindings, fluxId) ==> w.id in ids
    ensures WithoutWebhooks(bindings, fluxId, ids) == Unbound(bindings, fluxId)
    decreases |bindings|
  {
    if |bindings| > 0 {
      assert forall w :: w in BoundWebhooks(bindings[1..], fluxId) ==> w in BoundWebhooks(bindings, fluxId);
      UnbindAllBound(bindings[1..], fluxId, ids);
      if bindings[0].fluxId == fluxId {
        assert bindings[0].webhook in BoundWebhooks(bindings, fluxId);
      }
    }
  }

  /** The articles received from a flux, in table order. */
  function ArticlesOf(articles: seq<Article>, fluxId: nat): (r: seq<Article>)
    ensures |r| <= |articles|
    ensures forall a :: a in r <==> a in articles && a.sourceId == fluxId
    decreases |articles|
  {
    if |articles| == 0 then []
    else
      var rest := ArticlesOf(articles[1..], fluxId);
      assert forall a :: a in articles <==> a == articles[0] || a in articles[1..];
      if articles[0].sourceId == fluxId then [articles[0]] + rest else rest
  }

  /** The articles received from every other flux, in table order. */
  function ArticlesNotOf(articles: seq<Article>, fluxId: nat): (r: seq<Article>)
    ensures |r| <= |articles|
    ensures forall a :: a in r <==> a in articles && a.sourceId != fluxId
    decreases |articles|
  {
    if |articles| == 0 then []
    else
      var rest := ArticlesNotOf(articles[1..], fluxId);
      assert forall a :: a in articles <==> a == articles[0] || a in articles[1..];
      if articles[0].sourceId != fluxId then [articles[0]] + rest else rest
  }

  /** deleteArticlesOf's count: what it removes and what it keeps make up
      the table. */
  lemma {:induction false} ArticlesPartition(articles: seq<Article>, fluxId: nat)
    ensures |ArticlesOf(articles, fluxId)| + |ArticlesNotOf(articles, fluxId)| == |articles|
    decreases |articles|
  {
    if |articles| > 0 {
      ArticlesPartition(articles[1..], fluxId);
    }
  }

  /** The ids of some articles. */
  function ArticleIds(articles: seq<Article>): (ids: set<nat>)
    ensures forall a :: a in articles ==> a.id in ids
    ensures forall id :: id in ids ==> exists a :: a in articles && a.id == id
  {
    set a | a in articles :: a.id
  }

  /** One more webhook of the list adds its id. */
  lemma WebhookIdsPrefix(hooks: seq<Webhook>, i: nat)
    requires i < |hooks|
    ensures WebhookIds(hooks[..i + 1]) == WebhookIds(hooks[..i]) + {hooks[i].id}
  {
    assert hooks[..i + 1] == hooks[..i] + [hooks[i]];
    assert forall h :: h in hooks[..i + 1] <==> h in hooks[..i] || h == hooks[i];
  }

  /** One more article of the list adds its id. */
  lemma ArticleIdsPrefix(articles: seq<Article>, i: nat)
    requires i < |articles|
    ensures ArticleIds(articles[..i + 1]) == ArticleIds(articles[..i]) + {articles[i].id}
  {
    assert articles[..i + 1] == articles[..i] + [articles[i]];
    assert forall b :: b in articles[..i + 1] <==> b in articles[..i] || b == articles[i];
  }

  /** The deliveries of every article whose id is not in `ids`. */
  function DeliveriesNotOf(deliveries: set<Delivery>, ids: set<nat>): (r: set<Delivery>)
    ensures forall d :: d in r <==> d in deliveries && d.contentId !in ids
  {
    set d | d in deliveries && d.contentId !in ids
  }

  /** The ids of some webhooks. */
  function WebhookIds(hooks: seq<Webhook>): (ids: set<nat>)
    ensures forall w :: w in hooks ==> w.id in ids
    ensures forall id :: id in ids ==> exists w :: w in hooks && w.id == id
  {
    set w | w in hooks :: w.id
  }

  /** Dropping the deliveries of one more article. */
  lemma DeliveriesNotOfMore(deliveries: set<Delivery>, ids: set<nat>, id: nat)
    ensures DeliveriesNotOf(DeliveriesNotOf(deliveries, ids), {id}) == DeliveriesNotOf(deliveries, ids + {id})
  {
  }

  /** The deliveries of one article to each of the webhooks, built in list
      order. */
  function DeliveriesTo(articleId: nat, hooks: seq<Webhook>): set<Delivery>
    decreases |hooks|
  {
    if |hooks| == 0 then {}
    else DeliveriesTo(articleId, hooks[..|hooks| - 1]) + {Delivery(articleId, hooks[|hooks| - 1].id)}
  }

  /** Exactly one delivery of the article per webhook of the list. */
  lemma {:induction false} DeliveriesToMembers(articleId: nat, hooks: seq<Webhook>)
    ensures forall d :: d in DeliveriesTo(articleId, hooks) <==> d.contentId == articleId && d.receiverId in WebhookIds(hooks)
    decreases |hooks|
  {
    if |hooks| > 0 {
      var init := hooks[..|hooks| - 1];
      DeliveriesToMembers(articleId, init);
      assert hooks == init + [hooks[|hooks| - 1]];
      assert WebhookIds(hooks) == WebhookIds(init) + {hooks[|hooks| - 1].id};
    }
  }

  /** Delivering to the next webhook of the list adds its delivery. */
  lemma DeliveriesToNext(articleId: nat, hooks: seq<Webhook>, i: nat)
    requires i < |hooks|
    ensures DeliveriesTo(articleId, hooks[..i + 1]) == DeliveriesTo(articleId, hooks[..i]) + {Delivery(articleId, hooks[i].id)}
  {
    assert hooks[..i + 1][..i] == hooks[..i];
  }


  /** The tables. Ids are handed out by two counters, as an auto-increment
      key is. */
  class Store {
    var fluxes: map<nat, string>
    var nextFluxId: nat
    var bindings: seq<Binding>
    var articles: seq<Article>
    var nextArticleId: nat
    var deliveries: set<Delivery>

    /** Every id in use was handed out by its counter. */
    ghost predicate Valid()
      reads this
    {
      && (forall id :: id in fluxes ==> id < nextFluxId)
      && (forall a :: a in articles ==> a.id < nextArticleId)
    }

    constructor ()
      ensures Valid()
      ensures fluxes == map[] && bindings == [] && articles == [] && deliveries == {}
    {
      fluxes := map[];
      nextFluxId := 0;
      bindings := [];
      articles := [];
      nextArticleId := 0;
      deliveries := {};
    }

    /** getFlux: the flux with that id, `None` (null) when there is none. */
    method GetFlux(id: nat) returns (flux: Option<Flux>)
      ensures flux.Some? <==> id in fluxes
      ensures flux.Some? ==> flux.value == Flux(id, fluxes[id])
    {
      if id in fluxes {
        flux := Some(Flux(id, fluxes[id]));
      } else {
        flux := None;
      }
    }

    /** createFlux: a new flux under a fresh id. */
    method CreateFlux(url: string) returns (flux: Flux)
      requires Valid()
      modifies this
      ensures Valid()
      ensures flux == Flux(old(nextFluxId), url) && flux.id !in old(fluxes)
      ensures fluxes == old(fluxes)[flux.id := url] && nextFluxId == old(nextFluxId) + 1
      ensures bindings == old(bindings) && articles == old(articles)
      ensures nextArticleId == old(nextArticleId) && deliveries == old(deliveries)
    {
      flux := Flux(nextFluxId, url);
      fluxes := fluxes[nextFluxId := url];
      nextFluxId := nextFluxId + 1;
    }

    /** deleteFlux: removes the flux and returns it; `None` stands for the
        error raised when there is none. */
    method DeleteFlux(id: nat) returns (flux: Option<Flux>)
      requires Valid()
      modifies this
      ensures Valid()
      ensures flux.Some? <==> id in old(fluxes)
      ensures flux.Some? ==> flux.value == Flux(id, old(fluxes)[id])
      ensures fluxes == old(fluxes) - {id} && nextFluxId == old(nextFluxId)
      ensures bindings == old(bindings) && articles == old(articles)
      ensures nextArticleId == old(nextArticleId) && deliveries == old(deliveries)
    {
      flux := if id in fluxes then Some(Flux(id, fluxes[id])) else None;
      fluxes := fluxes - {id};
    }

    /** updateFlux: gives the flux a new url and returns it; `None` stands
        for the error raised when there is none. */
    method UpdateFlux(id: nat, url: string) returns (flux: Option<Flux>)
      requires Valid()
      modifies this
      ensures Valid()
      ensures flux.Some? <==> id in old(fluxes)
      ensures flux.Some? ==> flux.value == Flux(id, url) && fluxes == old(fluxes)[id := url]
      ensures flux.None? ==> fluxes == old(fluxes)
      ensures nextFluxId == old(nextFluxId)
      ensures bindings == old(bindings) && articles == old(articles)
      ensures nextArticleId == old(nextArticleId) && deliveries == old(deliveries)
    {
      if id in fluxes {
        fluxes := fluxes[id := url];
        flux := Some(Flux(id, url));
      } else {
        flux := None;
      }
    }

    /** get_hooks: the webhooks bound to the flux. */
    method GetHooks(fluxId: nat) returns (hooks: seq<Webhook>)
      ensures hooks == BoundWebhooks(bindings, fluxId)
    {
      hooks := BoundWebhooks(bindings, fluxId);
    }

    /** delete_hook: unbinds the webhook from the flux; false when there was
        no such binding (the caught error). */
    method DeleteHook(fluxId: nat, webhookId: nat) returns (deleted: bool)
      requires Valid()
      modifies this
      ensures Valid()
      ensures deleted <==> exists b :: b in old(bindings) && b.fluxId == fluxId && b.webhook.id == webhookId
      ensures bindings == WithoutWebhooks(old(bindings), fluxId, {webhookId})
      ensures fluxes == old(fluxes) && nextFluxId == old(nextFluxId) && articles == old(articles)
      ensures nextArticleId == old(nextArticleId) && deliveries == old(deliveries)
    {
      deleted := |WithoutWebhooks(bindings, fluxId, {webhookId})| != |bindings|;
      WithoutWebhooksLength(bindings, fluxId, webhookId);
      bindings := WithoutWebhooks(bindings, fluxId, {webhookId});
    }

    /** getArticlesSendedBy: the articles received from the flux. */
    method GetArticlesSentBy(fluxId: nat) returns (sent: seq<Article>)
      ensures sent == ArticlesOf(articles, fluxId)
    {
      sent := ArticlesOf(articles, fluxId);
    }

    /** createArticle: a new article under a fresh id. */
    method CreateArticle(title: string, sourceId: nat, description: Option<string>, url: Option<string>)
      returns (article: Article)
      requires Valid()
      modifies this
      ensures Valid()
      ensures article == Article(old(nextArticleId), title, description, url, sourceId)
      ensures forall a :: a in old(articles) ==> a.id != article.id
      ensures articles == old(articles) + [article] && nextArticleId == old(nextArticleId) + 1
      ensures fluxes == old(fluxes) && nextFluxId == old(nextFluxId)
      ensures bindings == old(bindings) && deliveries == old(deliveries)
    {
      article := Article(nextArticleId, title, description, url, sourceId);
      articles := articles + [article];
      nextArticleId := nextArticleId + 1;
    }

    /** deleteArticlesOf: removes the flux's articles and counts them. */
    method DeleteArticlesOf(fluxId: nat) returns (count: nat)
      requires Valid()
      modifies this
      ensures Valid()
      ensures articles == ArticlesNotOf(old(articles), fluxId)
      ensures count == |ArticlesOf(old(articles), fluxId)|
      ensures fluxes == old(fluxes) && nextFluxId == old(nextFluxId) && bindings == old(bindings)
      ensures nextArticleId == old(nextArticleId) && deliveries == old(deliveries)
    {
      ArticlesPartition(articles, fluxId);
      count := |articles| - |ArticlesNotOf(articles, fluxId)|;
      articles := ArticlesNotOf(articles, fluxId);
    }

    /** createDelevery: records that the article went to the webhook; a
        pair already recorded stays recorded once. */
    method CreateDelivery(webhookId: nat, articleId: nat) returns (delivery: Delivery)
      requires Valid()
      modifies this
      ensures Valid()
      ensures delivery == Delivery(articleId, webhookId)
      ensures deliveries == old(deliveries) + {delivery}
      ensures fluxes == old(fluxes) && nextFluxId == old(nextFluxId) && bindings == old(bindings)
      ensures articles == old(articles) && nextArticleId == old(nextArticleId)
    {
      delivery := Delivery(articleId, webhookId);
      deliveries := deliveries + {delivery};
    }

    /** deleteDeleveriesOf: removes the article's deliveries and counts them. */
    method DeleteDeliveriesOf(articleId: nat) returns (count: nat)
      requires Valid()
      modifies this
      ensures Valid()
      ensures deliveries == DeliveriesNotOf(old(deliveries), {articleId})
      ensures count == |old(deliveries) - deliveries|
      ensures fluxes == old(fluxes) && nextFluxId == old(nextFluxId) && bindings == old(bindings)
      ensures articles == old(articles) && nextArticleId == old(nextArticleId)
    {
      var kept := DeliveriesNotOf(deliveries, {articleId});
      count := |deliveries - kept|;
      deliveries := kept;
    }
  }

  /** Unbinding changes the table exactly when some binding matched. */
  lemma {:induction false} WithoutWebhooksLength(bindings: seq<Binding>, fluxId: nat, webhookId: nat)
    ensures |WithoutWebhooks(bindings, fluxId, {webhookId})| != |bindings|
        <==> exists b :: b in bindings && b.fluxId == fluxId && b.webhook.id == webhookId
    decreases |bindings|
  {
    if |bindings| > 0 {
      WithoutWebhooksLength(bindings[1..], fluxId, webhookId);
      assert forall b :: b in bindings <==> b == bindings[0] || b in bindings[1..];
    }
  }
}
