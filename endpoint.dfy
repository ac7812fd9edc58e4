/**
 * The request dispatcher of the PublishThis endpoint (class
 * Publishthis_Endpoint in classes/class-endpoint.php).
 *
 * One request is routed by its literal action string to the verify, publish
 * or getCategories handler; publish is gated by the curated_publish setting;
 * every handler ends in exactly one success or failure envelope. The foreign
 * code the class calls (the PublishThis API client, the publishing engine,
 * Drupal's taxonomy functions) becomes the Services value: what each call
 * returns, or the message of the exception it throws. Log writes and publish
 * calls are recorded as events in the order the source makes them.
 */
module Endpoint {
  import opened Options
  import opened JsonEscape
  import opened Envelope

  /** The request body after json_decode: only the two fields the endpoint reads. */
  datatype Request = Request(action: Option<string>, feedId: Option<int>)

  /** intval of the feedId field; a missing field reads as 0. */
  function FeedIdOf(request: Request): int {
    match request.feedId
    case Some(n) => n
    case None => 0
  }

  /** What a call into foreign code does: returns a value, or throws an Exception with a message. */
  datatype Call<T> = Returns(value: T) | Throws(message: string)

  /** A node of a Drupal taxonomy tree, with the two fields the endpoint copies. */
  datatype Term = Term(tid: int, name: string)

  /** The foreign code the endpoint calls, as the values it produces for this request. */
  datatype Services = Services(
    apiToken: string,                       // the api client's _get_token('api_token')
    hasClientInfo: bool,                    // whether get_client_info() returned a non-empty value
    publish: Call<()>,                      // the outcome of publish_specific_feeds
    taxonomy: string -> Call<seq<Term>>)    // the tree of the vocabulary with this machine name

  /** What the endpoint writes to the log and asks of the publishing engine, in order. */
  datatype Event =
    | Logged(level: string, message: string, status: string, details: Option<string>)
    | PublishCalled(feedIds: seq<int>)

  const SettingEnabled: string := "publishthis_import_from_manager"
  const TaxonomyGroup: string := "publish_this_categories"
  const CategoriesKey: string := "categories"

  const MsgBadRequest: string := "Empty or bad request made to endpoint"
  const MsgPublishingDisabled: string := "Publishing through CMS is disabled"
  const MsgNoApiKey: string := "No API Key Entered"
  const MsgInvalidApiKey: string := "API Key Entered is not Valid"
  const MsgEmptyFeedId: string := "Empty feed id"

  /** PHP's empty() on a string: the empty string and "0". */
  predicate PhpEmptyString(s: string) {
    s == "" || s == "0"
  }

  /** Publishing is allowed only when the curated_publish setting holds the sentinel. */
  predicate PublishEnabled(curatedPublish: Option<string>) {
    curatedPublish == Some(SettingEnabled)
  }

  /** The entry process_request logs for every request, holding the raw body. */
  function RequestLog(body: string): Event {
    Logged("2", "Endpoint Request", "info", Some(body))
  }

  /** The entry actionVerify logs; its details carry a timestamp, which is not modelled. */
  function VerifyLog(level: string, status: string): Event {
    Logged(level, "Verify Plugin Endpoint", status, None)
  }

  /** One category as actionGetCategories copies it: its id and its name, unescaped. */
  function CategoryJson(t: Term): Json {
    JObject(map["id" := JInt(t.tid), "name" := JString(t.name)])
  }

  /** The categories of a tree, in tree order. */
  function CategoryItems(tree: seq<Term>): (r: seq<Json>)
    ensures |r| == |tree|
    decreases |tree|
  {
    if tree == [] then []
    else CategoryItems(tree[..|tree| - 1]) + [CategoryJson(tree[|tree| - 1])]
  }

  // ---------------------------------------------------------------------------
  // The dispatcher as a function of its inputs

  /** The log entries and publish calls of one handler, and the answer it sends. */
  datatype Reply = Reply(events: seq<Event>, answer: Answer)

  /** The whole effect of one request: events, the one answer sent, and the new response data. */
  datatype Outcome = Outcome(events: seq<Event>, answer: Answer, data: map<string, Json>)

  /** actionVerify: token check, client-info check, then success. */
  function VerifyReply(c: Services, data: map<string, Json>): Reply {
    if PhpEmptyString(c.apiToken) then
      Reply([VerifyLog("1", "error")], Failure(MsgNoApiKey))
    else if !c.hasClientInfo then
      Reply([VerifyLog("1", "error")], Failure(MsgInvalidApiKey))
    else
      Reply([VerifyLog("2", "info")], Success(data))
  }

  /** actionPublish: an empty feed id fails, otherwise one publish call for that feed. */
  function PublishReply(feedId: int, c: Services, data: map<string, Json>): Reply {
    if feedId == 0 then Reply([], Failure(MsgEmptyFeedId))
    else
      match c.publish
      case Throws(m) => Reply([PublishCalled([feedId])], Failure(m))
      case Returns(_) => Reply([PublishCalled([feedId])], Success(data))
  }

  /** process_request, for the response data the object holds when it is called. */
  function Serve(body: string, request: Request, curatedPublish: Option<string>, c: Services,
                 data: map<string, Json>): Outcome
  {
    var logged := [RequestLog(body)];
    if request.action == Some("verify") then
      var r := VerifyReply(c, data);
      Outcome(logged + r.events, r.answer, data)
    else if request.action == Some("publish") then
      if !PublishEnabled(curatedPublish) then
        Outcome(logged, Failure(MsgPublishingDisabled), data)
      else
        var r := PublishReply(FeedIdOf(request), c, data);
        Outcome(logged + r.events, r.answer, data)
    else if request.action == Some("getCategories") then
      var reset := data[CategoriesKey := JArray([])];
      match c.taxonomy(TaxonomyGroup)
      case Throws(m) => Outcome(logged, Failure(m), reset)
      case Returns(tree) =>
        var filled := data[CategoriesKey := JArray(CategoryItems(tree))];
        Outcome(logged, Success(filled), filled)
    else
      Outcome(logged, Failure(MsgBadRequest), data)
  }

  /** Serve on the verify route: the request log, then actionVerify's reply. */
  lemma ServeVerify(body: string, request: Request, flag: Option<string>, c: Services, data: map<string, Json>)
    requires request.action == Some("verify")
    ensures Serve(body, request, flag, c, data) ==
      Outcome([RequestLog(body)] + VerifyReply(c, data).events, VerifyReply(c, data).answer, data)
  {
  }

  /** Serve on the publish route: the setting gate, then actionPublish's reply. */
  lemma ServePublish(body: string, request: Request, flag: Option<string>, c: Services, data: map<string, Json>)
    requires request.action == Some("publish")
    ensures Serve(body, request, flag, c, data) ==
      if !PublishEnabled(flag) then Outcome([RequestLog(body)], Failure(MsgPublishingDisabled), data)
      else Outcome([RequestLog(body)] + PublishReply(FeedIdOf(request), c, data).events,
                   PublishReply(FeedIdOf(request), c, data).answer, data)
  {
  }

  // ---------------------------------------------------------------------------
  // The endpoint object

  class PublishthisEndpoint {
    /** The payload sendSuccess copies into a success envelope. */
    var responseData: map<string, Json>
    /** The envelopes sendJSON has written, in order. */
    var sent: seq<Response>
    /** The log entries and publish calls made so far, in order. */
    var trace: seq<Event>

    /** The response data never shadows the two fixed properties of an envelope. */
    predicate Valid()
      reads this
    {
      ReservedFree(responseData)
    }

    constructor ()
      ensures Valid()
      ensures responseData == map[] && sent == [] && trace == []
    {
      responseData := map[];
      sent := [];
      trace := [];
    }

    /** sendFailure: one failure envelope with the escaped message. */
    method SendFailure(message: string)
      modifies this
      ensures sent == old(sent) + [FailureEnvelope(message)]
      ensures responseData == old(responseData) && trace == old(trace)
    {
      var obj: Response := map[SuccessKey := JBool(false), ErrorKey := JString(EscapeJsonString(message))];
      sent := sent + [obj];
    }

    /** sendSuccess: copies every response-data entry into the envelope; the message is unused. */
    method SendSuccess(message: string)
      modifies this
      ensures sent == old(sent) + [SuccessEnvelope(responseData)]
      ensures responseData == old(responseData) && trace == old(trace)
    {
      var base: Response := map[SuccessKey := JBool(true), ErrorKey := JNull];
      var obj := base;
      var keys := responseData.Keys;
      while keys != {}
        invariant keys <= responseData.Keys
        invariant obj == base + (map k | k in responseData && k !in keys :: responseData[k])
        decreases keys
      {
        var key :| key in keys;
        ghost var done := map k | k in responseData && k !in keys :: responseData[k];
        obj := obj[key := responseData[key]];
        keys := keys - {key};
        assert (map k | k in responseData && k !in keys :: responseData[k]) == done[key := responseData[key]];
      }
      assert (map k | k in responseData && k !in keys :: responseData[k]) == responseData;
      sent := sent + [obj];
    }

    /** actionVerify. */
    method ActionVerify(c: Services)
      modifies this
      ensures var r := VerifyReply(c, old(responseData));
        trace == old(trace) + r.events && sent == old(sent) + [Render(r.answer)]
      ensures responseData == old(responseData)
    {
      if PhpEmptyString(c.apiToken) {
        trace := trace + [VerifyLog("1", "error")];
        SendFailure(MsgNoApiKey);
        return;
      }
      if !c.hasClientInfo {
        trace := trace + [VerifyLog("1", "error")];
        SendFailure(MsgInvalidApiKey);
        return;
      }
      trace := trace + [VerifyLog("2", "info")];
      SendSuccess("");
    }

    /** actionPublish; an exception of the publishing engine is caught here. */
    method ActionPublish(feedId: int, c: Services)
      modifies this
      ensures var r := PublishReply(feedId, c, old(responseData));
        trace == old(trace) + r.events && sent == old(sent) + [Render(r.answer)]
      ensures responseData == old(responseData)
    {
      if feedId == 0 {
        SendFailure(MsgEmptyFeedId);
        return;
      }
      var feeds := [feedId];
      trace := trace + [PublishCalled(feeds)];
      match c.publish
      case Throws(m) =>
        SendFailure(m);
        return;
      case Returns(_) =>
      SendSuccess("published");
    }

    /**
     * actionGetCategories: appends one category per tree node to the
     * categories entry. An exception of the taxonomy lookup is not caught
     * here; it is returned for process_request to handle.
     */
    method ActionGetCategories(parentName: string, c: Services) returns (thrown: Option<string>)
      requires CategoriesKey in responseData && responseData[CategoriesKey].JArray?
      modifies this
      ensures match c.taxonomy(parentName)
        case Throws(m) => thrown == Some(m) && responseData == old(responseData)
        case Returns(tree) =>
          thrown == None &&
          responseData == old(responseData)[CategoriesKey :=
            JArray(old(responseData)[CategoriesKey].items + CategoryItems(tree))]
      ensures sent == old(sent) && trace == old(trace)
    {
      var lookup := c.taxonomy(parentName);
      if lookup.Throws? {
        return Some(lookup.message);
      }
      var tree := lookup.value;
      ghost var before := responseData[CategoriesKey].items;
      assert responseData[CategoriesKey] == JArray(before + CategoryItems(tree[..0]));
      var i := 0;
      while i < |tree|
        invariant 0 <= i <= |tree|
        invariant responseData == old(responseData)[CategoriesKey := JArray(before + CategoryItems(tree[..i]))]
        invariant sent == old(sent) && trace == old(trace)
      {
        var cat := CategoryJson(tree[i]);
        responseData := responseData[CategoriesKey := JArray(responseData[CategoriesKey].items + [cat])];
        assert tree[..i + 1][..i] == tree[..i];
        assert before + CategoryItems(tree[..i + 1]) == (before + CategoryItems(tree[..i])) + [cat];
        i := i + 1;
      }
      assert tree[..|tree|] == tree;
      thrown := None;
    }

    /**
     * process_request: logs the raw body, routes on the action, and sends
     * exactly one envelope; an exception escaping a handler becomes a failure
     * carrying its message.
     */
    method ProcessRequest(body: string, request: Request, curatedPublish: Option<string>, c: Services)
      requires Valid()
      modifies this
      ensures Valid()
      ensures var o := Serve(body, request, curatedPublish, c, old(responseData));
        trace == old(trace) + o.events && sent == old(sent) + [Render(o.answer)] && responseData == o.data
    {
      trace := trace + [RequestLog(body)];
      var action := request.action;
      if action == Some("verify") {
        ServeVerify(body, request, curatedPublish, c, responseData);
        ActionVerify(c);
      } else if action == Some("publish") {
        ServePublish(body, request, curatedPublish, c, responseData);
        if !PublishEnabled(curatedPublish) {
          SendFailure(MsgPublishingDisabled);
          return;
        }
        ActionPublish(FeedIdOf(request), c);
      } else if action == Some("getCategories") {
        ghost var data := responseData;
        responseData := responseData[CategoriesKey := JArray([])];
        var thrown := ActionGetCategories(TaxonomyGroup, c);
        if thrown.Some? {
          SendFailure(thrown.value);
          return;
        }
        ghost var items := CategoryItems(c.taxonomy(TaxonomyGroup).value);
        assert [] + items == items;
        assert responseData == data[CategoriesKey := JArray(items)];
        SendSuccess("categories fetched");
      } else {
        SendFailure(MsgBadRequest);
      }
    }
  }
}
