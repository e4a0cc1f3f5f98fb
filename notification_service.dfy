/**
 * The notification service: a registry of named notifiers (e-mail, Slack,
 * ...) and three broadcasts that walk a list of names, skip names nobody
 * registered, and stop at the first notifier that reports an error.
 * What a notifier does with a notification is a function field; sending
 * itself is outside the model.
 */
module Notifications {
  import opened Wrappers

  datatype Field = Field(title: string, value: string, short: bool)
  datatype Attachment = Attachment(title: string, text: string, color: string, fields: seq<Field>)

  /** The three kinds of notification; template data is kept as its text form. */
  datatype Request =
    | Message(text: string)
    | WithAttachments(attachments: seq<Attachment>)
    | WithTemplate(templatePath: string, data: string)

  /** A notifier's three operations, each reporting success or an error. */
  datatype Notifier = Notifier(
    send: string -> Outcome,
    sendWithAttachments: seq<Attachment> -> Outcome,
    sendWithTemplate: (string, string) -> Outcome)

  function Deliver(n: Notifier, req: Request): Outcome
  {
    match req
    case Message(text) => n.send(text)
    case WithAttachments(attachments) => n.sendWithAttachments(attachments)
    case WithTemplate(path, data) => n.sendWithTemplate(path, data)
  }

  /** The outcome of a broadcast: the error of the first registered notifier that fails, in list order. */
  function Dispatch(notifiers: map<string, Notifier>, names: seq<string>, req: Request): Outcome
    decreases |names|
  {
    if names == [] then Pass
    else if names[0] in notifiers && Deliver(notifiers[names[0]], req).Fail? then Deliver(notifiers[names[0]], req)
    else Dispatch(notifiers, names[1..], req)
  }

  /** The names whose notifier a broadcast calls: the registered ones, up to and including the first failure. */
  function Reached(notifiers: map<string, Notifier>, names: seq<string>, req: Request): seq<string>
    decreases |names|
  {
    if names == [] then []
    else if names[0] !in notifiers then Reached(notifiers, names[1..], req)
    else if Deliver(notifiers[names[0]], req).Fail? then [names[0]]
    else [names[0]] + Reached(notifiers, names[1..], req)
  }

  /** The registered names in the list. */
  function Registered(notifiers: map<string, Notifier>, names: seq<string>): (rs: seq<string>)
    ensures forall n :: n in rs <==> n in names && n in notifiers
    decreases |names|
  {
    if names == [] then []
    else (if names[0] in notifiers then [names[0]] else []) + Registered(notifiers, names[1..])
  }

  class NotificationService {
    var notifiers: map<string, Notifier>

    constructor ()
      ensures notifiers == map[]
    {
      notifiers := map[];
    }

    method RegisterNotifier(name: string, notifier: Notifier)
      modifies this
      ensures notifiers == old(notifiers)[name := notifier]
    {
      notifiers := notifiers[name := notifier];
    }

    /** Registering twice under one name keeps the later notifier and leaves the others as they were. */
    method RegisterReplaces(name: string, first: Notifier, second: Notifier)
      modifies this
      ensures notifiers == old(notifiers)[name := second]
    {
      RegisterNotifier(name, first);
      RegisterNotifier(name, second);
    }

    /** The loop the three broadcasts share; `called` lists the notifiers it invoked, in order. */
    method Broadcast(names: seq<string>, req: Request) returns (err: Outcome, called: seq<string>)
      ensures err == Dispatch(notifiers, names, req)
      ensures called == Reached(notifiers, names, req)
    {
      called := [];
      var i := 0;
      while i < |names|
        invariant 0 <= i <= |names|
        invariant Dispatch(notifiers, names, req) == Dispatch(notifiers, names[i..], req)
        invariant Reached(notifiers, names, req) == called + Reached(notifiers, names[i..], req)
      {
        assert names[i..][1..] == names[i + 1..];
        var name := names[i];
        if name in notifiers {
          var notifier := notifiers[name];
          called := called + [name];
          var outcome := Deliver(notifier, req);
          if outcome.Fail? {
            return outcome, called;
          }
        }
        i := i + 1;
      }
      return Pass, called;
    }

    method SendNotification(names: seq<string>, message: string) returns (err: Outcome, called: seq<string>)
      ensures err == Dispatch(notifiers, names, Message(message))
      ensures called == Reached(notifiers, names, Message(message))
    {
      err, called := Broadcast(names, Message(message));
    }

    method SendNotificationWithAttachments(names: seq<string>, attachments: seq<Attachment>)
      returns (err: Outcome, called: seq<string>)
      ensures err == Dispatch(notifiers, names, WithAttachments(attachments))
      ensures called == Reached(notifiers, names, WithAttachments(attachments))
    {
      err, called := Broadcast(names, WithAttachments(attachments));
    }

    method SendNotificationWithTemplate(names: seq<string>, templatePath: string, data: string)
      returns (err: Outcome, called: seq<string>)
      ensures err == Dispatch(notifiers, names, WithTemplate(templatePath, data))
      ensures called == Reached(notifiers, names, WithTemplate(templatePath, data))
    {
      err, called := Broadcast(names, WithTemplate(templatePath, data));
    }
  }

  /** A broadcast succeeds exactly when every registered notifier in the list succeeds; then it calls all of them. */
  lemma {:induction false} BroadcastSucceedsIff(notifiers: map<string, Notifier>, names: seq<string>, req: Request)
    ensures Dispatch(notifiers, names, req) == Pass <==>
      forall i :: 0 <= i < |names| && names[i] in notifiers ==> Deliver(notifiers[names[i]], req) == Pass
    ensures Dispatch(notifiers, names, req) == Pass ==> Reached(notifiers, names, req) == Registered(notifiers, names)
    decreases |names|
  {
    if names != [] {
      BroadcastSucceedsIff(notifiers, names[1..], req);
      assert forall i :: 1 <= i < |names| ==> names[i] == names[1..][i - 1];
    }
  }

  /**
   * A failed broadcast reports the error of the last notifier it called,
   * and every notifier called before that one succeeded.
   */
  lemma {:induction false} FailureStopsBroadcast(notifiers: map<string, Notifier>, names: seq<string>, req: Request)
    requires Dispatch(notifiers, names, req).Fail?
    ensures var called := Reached(notifiers, names, req);
      && |called| >= 1
      && called[|called| - 1] in notifiers
      && Deliver(notifiers[called[|called| - 1]], req) == Dispatch(notifiers, names, req)
      && (forall k :: 0 <= k < |called| - 1 ==> called[k] in notifiers && Deliver(notifiers[called[k]], req) == Pass)
      && (forall n :: n in called ==> n in names)
    decreases |names|
  {
    if !(names[0] in notifiers && Deliver(notifiers[names[0]], req).Fail?) {
      FailureStopsBroadcast(notifiers, names[1..], req);
      var rest := Reached(notifiers, names[1..], req);
      if names[0] in notifiers {
        assert Reached(notifiers, names, req) == [names[0]] + rest;
        assert forall k :: 1 <= k < |rest| + 1 ==> ([names[0]] + rest)[k] == rest[k - 1];
      }
    }
  }

  /** Names that nobody registered make no difference to a broadcast's outcome. */
  lemma {:induction false} UnregisteredNamesIgnored(notifiers: map<string, Notifier>, names: seq<string>, req: Request)
    ensures Dispatch(notifiers, names, req) == Dispatch(notifiers, Registered(notifiers, names), req)
    decreases |names|
  {
    if names != [] {
      UnregisteredNamesIgnored(notifiers, names[1..], req);
      var rest := Registered(notifiers, names[1..]);
      if names[0] in notifiers {
        var rs := [names[0]] + rest;
        assert Registered(notifiers, names) == rs;
        assert rs[0] == names[0] && rs[1..] == rest;
      } else {
        assert Registered(notifiers, names) == rest;
      }
    }
  }

  /** Nor do they change which notifiers it calls. */
  lemma {:induction false} UnregisteredNamesNotCalled(notifiers: map<string, Notifier>, names: seq<string>, req: Request)
    ensures Reached(notifiers, names, req) == Reached(notifiers, Registered(notifiers, names), req)
    decreases |names|
  {
    if names != [] {
      UnregisteredNamesNotCalled(notifiers, names[1..], req);
      var rest := Registered(notifiers, names[1..]);
      if names[0] in notifiers {
        var rs := [names[0]] + rest;
        assert Registered(notifiers, names) == rs;
        assert rs[0] == names[0] && rs[1..] == rest;
      } else {
        assert Registered(notifiers, names) == rest;
      }
    }
  }
}
