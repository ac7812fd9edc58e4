/**
 * What the dispatcher promises, stated over Serve, the function that
 * PublishthisEndpoint.ProcessRequest is proved to follow.
 */
module EndpointProperties {
  import opened Options
  import opened JsonEscape
  import opened Envelope
  import opened Endpoint

  predicate Routed(action: Option<string>) {
    action == Some("verify") || action == Some("publish") || action == Some("getCategories")
  }

  /** The feed lists passed to the publishing engine, in order. */
  function PublishCalls(events: seq<Event>): (r: seq<seq<int>>)
    ensures r == [] <==> forall i :: 0 <= i < |events| ==> !events[i].PublishCalled?
    decreases |events|
  {
    if events == [] then []
    else (if events[0].PublishCalled? then [events[0].feedIds] else []) + PublishCalls(events[1..])
  }

  lemma {:induction false} PublishCallsConcat(a: seq<Event>, b: seq<Event>)
    ensures PublishCalls(a + b) == PublishCalls(a) + PublishCalls(b)
    decreases |a|
  {
    if a == [] {
      assert a + b == b;
    } else {
      assert (a + b)[0] == a[0] && (a + b)[1..] == a[1..] + b;
      PublishCallsConcat(a[1..], b);
    }
  }

  /** The request log is the first event, and no later event is a request log. */
  predicate LoggedOnceFirst(body: string, events: seq<Event>) {
    |events| >= 1 && events[0] == RequestLog(body) &&
    forall i :: 1 <= i < |events| ==> !(events[i].Logged? && events[i].message == "Endpoint Request")
  }

  /** The shape every outcome has. */
  predicate GoodOutcome(body: string, o: Outcome) {
    LoggedOnceFirst(body, o.events) && WellFormed(Render(o.answer)) && ReservedFree(o.data) &&
    (IsFailure(Render(o.answer)) ==> Render(o.answer).Keys == {SuccessKey, ErrorKey})
  }

  /** Handler events that are not the request log. */
  predicate HandlerEvents(extra: seq<Event>) {
    forall i :: 0 <= i < |extra| ==> !(extra[i].Logged? && extra[i].message == "Endpoint Request")
  }

  lemma LoggedFirst(body: string, extra: seq<Event>)
    requires HandlerEvents(extra)
    ensures LoggedOnceFirst(body, [RequestLog(body)] + extra)
  {
    var events := [RequestLog(body)] + extra;
    forall i | 1 <= i < |events|
      ensures !(events[i].Logged? && events[i].message == "Endpoint Request")
    {
      assert events[i] == extra[i - 1];
    }
  }

  lemma FailureOutcomeGood(body: string, extra: seq<Event>, m: string, data: map<string, Json>)
    requires HandlerEvents(extra) && ReservedFree(data)
    ensures GoodOutcome(body, Outcome([RequestLog(body)] + extra, Failure(m), data))
  {
    LoggedFirst(body, extra);
    FailureShape(m);
  }

  lemma SuccessOutcomeGood(body: string, extra: seq<Event>, data: map<string, Json>)
    requires HandlerEvents(extra) && ReservedFree(data)
    ensures GoodOutcome(body, Outcome([RequestLog(body)] + extra, Success(data), data))
  {
    LoggedFirst(body, extra);
    SuccessShape(data);
  }

  /**
   * Every request logs its raw body once, before anything else, and yields a
   * well-formed envelope; a failure envelope carries no payload; the response
   * data keeps clear of the envelope's two fixed properties.
   */
  lemma ServeShape(body: string, request: Request, flag: Option<string>, c: Services, data: map<string, Json>)
    requires ReservedFree(data)
    ensures GoodOutcome(body, Serve(body, request, flag, c, data))
  {
    if request.action == Some("verify") {
      ServeVerify(body, request, flag, c, data);
      var r := VerifyReply(c, data);
      assert HandlerEvents(r.events);
      if r.answer.Success? {
        SuccessOutcomeGood(body, r.events, data);
      } else if PhpEmptyString(c.apiToken) {
        FailureOutcomeGood(body, r.events, MsgNoApiKey, data);
      } else {
        FailureOutcomeGood(body, r.events, MsgInvalidApiKey, data);
      }
    } else if request.action == Some("publish") {
      if !PublishEnabled(flag) {
        FailureOutcomeGood(body, [], MsgPublishingDisabled, data);
        assert [RequestLog(body)] + [] == [RequestLog(body)];
      } else {
        ServePublish(body, request, flag, c, data);
        var r := PublishReply(FeedIdOf(request), c, data);
        assert HandlerEvents(r.events);
        if FeedIdOf(request) == 0 {
          FailureOutcomeGood(body, r.events, MsgEmptyFeedId, data);
        } else if c.publish.Throws? {
          FailureOutcomeGood(body, r.events, c.publish.message, data);
        } else {
          SuccessOutcomeGood(body, r.events, data);
        }
      }
    } else if request.action == Some("getCategories") {
      assert [RequestLog(body)] + [] == [RequestLog(body)];
      match c.taxonomy(TaxonomyGroup)
      case Throws(m) =>
        FailureOutcomeGood(body, [], m, data[CategoriesKey := JArray([])]);
      case Returns(tree) =>
        SuccessOutcomeGood(body, [], data[CategoriesKey := JArray(CategoryItems(tree))]);
    } else {
      FailureOutcomeGood(body, [], MsgBadRequest, data);
      assert [RequestLog(body)] + [] == [RequestLog(body)];
    }
  }

  /** Any action other than the three, a missing one included, is a bad request. */
  lemma UnknownActionFails(body: string, request: Request, flag: Option<string>, c: Services, data: map<string, Json>)
    requires !Routed(request.action)
    ensures Serve(body, request, flag, c, data) ==
      Outcome([RequestLog(body)], Failure(MsgBadRequest), data)
  {
  }

  /** With publishing disabled, publish fails and the publishing engine is never called. */
  lemma PublishGate(body: string, request: Request, flag: Option<string>, c: Services, data: map<string, Json>)
    requires request.action == Some("publish") && !PublishEnabled(flag)
    ensures var o := Serve(body, request, flag, c, data);
      o == Outcome([RequestLog(body)], Failure(MsgPublishingDisabled), data) &&
      PublishCalls(o.events) == []
  {
  }

  /**
   * With publishing enabled: feed id 0 fails without a publish call; any
   * other id is published exactly once, as the one-element list [feedId], and
   * the engine's exception message, or success, is what comes back.
   */
  lemma PublishBranches(body: string, request: Request, flag: Option<string>, c: Services, data: map<string, Json>)
    requires request.action == Some("publish") && PublishEnabled(flag)
    ensures var o := Serve(body, request, flag, c, data);
      && o.data == data
      && (FeedIdOf(request) == 0 ==>
            o.events == [RequestLog(body)] && o.answer == Failure(MsgEmptyFeedId))
      && (FeedIdOf(request) != 0 ==>
            o.events == [RequestLog(body), PublishCalled([FeedIdOf(request)])] &&
            o.answer == match c.publish
              case Throws(m) => Failure(m)
              case Returns(_) => Success(data))
  {
  }

  lemma PublishCallsLogged(body: string, extra: seq<Event>)
    ensures PublishCalls([RequestLog(body)] + extra) == PublishCalls(extra)
  {
    PublishCallsConcat([RequestLog(body)], extra);
    assert [RequestLog(body)][1..] == [];
  }

  lemma VerifyCallsNone(c: Services, data: map<string, Json>)
    ensures PublishCalls(VerifyReply(c, data).events) == []
  {
    assert VerifyReply(c, data).events[1..] == [];
  }

  lemma PublishReplyCalls(feedId: int, c: Services, data: map<string, Json>)
    ensures PublishCalls(PublishReply(feedId, c, data).events) == if feedId != 0 then [[feedId]] else []
  {
    if feedId != 0 {
      assert PublishReply(feedId, c, data).events[1..] == [];
    }
  }

  /**
   * The publishing engine is called at most once per request, and exactly when
   * the action is publish, publishing is enabled and the feed id is not 0.
   */
  lemma {:induction false} PublishOnlyWhenAllowed(body: string, request: Request, flag: Option<string>, c: Services,
                                data: map<string, Json>)
    ensures var o := Serve(body, request, flag, c, data);
      PublishCalls(o.events) ==
        if request.action == Some("publish") && PublishEnabled(flag) && FeedIdOf(request) != 0
        then [[FeedIdOf(request)]] else []
  {
    if request.action == Some("verify") {
      ServeVerify(body, request, flag, c, data);
      PublishCallsLogged(body, VerifyReply(c, data).events);
      VerifyCallsNone(c, data);
    } else if request.action == Some("publish") && PublishEnabled(flag) {
      ServePublish(body, request, flag, c, data);
      PublishCallsLogged(body, PublishReply(FeedIdOf(request), c, data).events);
      PublishReplyCalls(FeedIdOf(request), c, data);
    } else {
      PublishCallsLogged(body, []);
      assert [RequestLog(body)] + [] == [RequestLog(body)];
    }
  }

  /**
   * verify: an empty token gives "No API Key Entered", an empty client-info
   * answer "API Key Entered is not Valid", each with one level-1 log entry;
   * otherwise success, with one level-2 entry.
   */
  lemma VerifyBranches(body: string, request: Request, flag: Option<string>, c: Services, data: map<string, Json>)
    requires request.action == Some("verify")
    ensures var o := Serve(body, request, flag, c, data);
      && o.data == data
      && (PhpEmptyString(c.apiToken) ==>
            o.events == [RequestLog(body), VerifyLog("1", "error")] && o.answer == Failure(MsgNoApiKey))
      && (!PhpEmptyString(c.apiToken) && !c.hasClientInfo ==>
            o.events == [RequestLog(body), VerifyLog("1", "error")] && o.answer == Failure(MsgInvalidApiKey))
      && (!PhpEmptyString(c.apiToken) && c.hasClientInfo ==>
            o.events == [RequestLog(body), VerifyLog("2", "info")] && o.answer == Success(data))
  {
  }

  /** The i-th category is the i-th tree node's id and name. */
  lemma {:induction false} CategoryItemsAt(tree: seq<Term>, i: nat)
    requires i < |tree|
    ensures CategoryItems(tree)[i] == CategoryJson(tree[i])
    decreases |tree|
  {
    if i < |tree| - 1 {
      CategoryItemsAt(tree[..|tree| - 1], i);
    }
  }

  /**
   * getCategories: the success envelope's categories are the tree's nodes, as
   * (id, name), one per node and in tree order, whatever the entry held before.
   */
  lemma CategoriesInOrder(body: string, request: Request, flag: Option<string>, c: Services, data: map<string, Json>,
                          tree: seq<Term>)
    requires request.action == Some("getCategories") && c.taxonomy(TaxonomyGroup) == Returns(tree)
    ensures var o := Serve(body, request, flag, c, data);
      && o.events == [RequestLog(body)]
      && o.answer == Success(o.data)
      && CategoriesKey in o.data && o.data[CategoriesKey].JArray?
      && |o.data[CategoriesKey].items| == |tree|
      && (forall i :: 0 <= i < |tree| ==>
            o.data[CategoriesKey].items[i] == JObject(map["id" := JInt(tree[i].tid), "name" := JString(tree[i].name)]))
      && (forall k :: k in data && k != CategoriesKey ==> k in o.data && o.data[k] == data[k])
      && o.data.Keys == data.Keys + {CategoriesKey}
  {
    forall i | 0 <= i < |tree|
      ensures CategoryItems(tree)[i] == JObject(map["id" := JInt(tree[i].tid), "name" := JString(tree[i].name)])
    {
      CategoryItemsAt(tree, i);
    }
  }

  /**
   * An exception from the taxonomy lookup escapes the handler and becomes a
   * failure carrying its message; the categories entry stays reset to empty.
   */
  lemma CategoriesLookupThrows(body: string, request: Request, flag: Option<string>, c: Services,
                               data: map<string, Json>, m: string)
    requires request.action == Some("getCategories") && c.taxonomy(TaxonomyGroup) == Throws(m)
    ensures Serve(body, request, flag, c, data) ==
      Outcome([RequestLog(body)], Failure(m), data[CategoriesKey := JArray([])])
  {
  }

  /**
   * The response data lives in the object: a verify that succeeds after a
   * getCategories on the same object carries the same categories.
   */
  lemma CategoriesCarryOver(b1: string, b2: string, r1: Request, r2: Request, flag: Option<string>,
                            c1: Services, c2: Services, data: map<string, Json>, tree: seq<Term>)
    requires r1.action == Some("getCategories") && c1.taxonomy(TaxonomyGroup) == Returns(tree)
    requires r2.action == Some("verify") && !PhpEmptyString(c2.apiToken) && c2.hasClientInfo
    requires ReservedFree(data)
    ensures var o1 := Serve(b1, r1, flag, c1, data);
      var o2 := Serve(b2, r2, flag, c2, o1.data);
      var e1 := Render(o1.answer);
      var e2 := Render(o2.answer);
      CategoriesKey in e1 && CategoriesKey in e2 && e2[CategoriesKey] == e1[CategoriesKey] == JArray(CategoryItems(tree))
  {
  }

  /**
   * The failure branch of publish: an engine message with nothing to escape,
   * such as "disk full", reaches the client exactly as thrown.
   */
  lemma PublishThrowsClean(body: string, request: Request, flag: Option<string>, c: Services,
                           data: map<string, Json>, m: string)
    requires request.action == Some("publish") && PublishEnabled(flag) && FeedIdOf(request) != 0
    requires c.publish == Throws(m) && forall i :: 0 <= i < |m| ==> !Escaped(m[i])
    ensures Render(Serve(body, request, flag, c, data).answer) ==
      map[SuccessKey := JBool(false), ErrorKey := JString(m)]
  {
    PublishBranches(body, request, flag, c, data);
    CleanUnchanged(m);
  }

  /** The example tree [(1, "A"), (2, "B")] gives [{"id":1,"name":"A"},{"id":2,"name":"B"}]. */
  lemma CategoriesExample(body: string, flag: Option<string>, c: Services, data: map<string, Json>)
    requires c.taxonomy(TaxonomyGroup) == Returns([Term(1, "A"), Term(2, "B")])
    ensures var o := Serve(body, Request(Some("getCategories"), None), flag, c, data);
      Render(o.answer)[CategoriesKey] == JArray([
        JObject(map["id" := JInt(1), "name" := JString("A")]),
        JObject(map["id" := JInt(2), "name" := JString("B")])])
  {
    var tree := [Term(1, "A"), Term(2, "B")];
    assert tree[..1] == [Term(1, "A")];
    assert CategoryItems(tree) == CategoryItems(tree[..1]) + [CategoryJson(tree[1])];
  }
}
