/** The activity stream: actions users took, how an action reads as a
    sentence, the newest-first order of the stream, and the action table
    that send_action adds to and that deleting an actionable object
    clears. */
module Stream {
  import opened Wrappers
  import opened Ordering
  import opened Tables

  /** The models an action can point at. Locations, people, albums and
      photos are actionable; thumbnails are not. */
  datatype Kind = LocationKind | PersonKind | AlbumKind | PhotoKind | ThumbnailKind

  predicate Actionable(k: Kind)
  {
    k != ThumbnailKind
  }

  /** A generic foreign key: the model and the primary key of an object. */
  datatype ObjRef = ObjRef(kind: Kind, id: int)

  datatype Action = Action(id: int, timestamp: int, userId: int, verb: string, join: Option<string>,
                           actionObject: Option<ObjRef>, target: Option<ObjRef>)

  /** The gap between the join and the target in the four-part sentence:
      the space before the line continuation of the format string and the
      twenty spaces that indent its next line. */
  const TargetGap := "                     "

  /** "%s" of an optional text: None prints as "None". */
  function Show(t: Option<string>): string
  {
    if t.Some? then t.value else "None"
  }

  /** Action.__str__ for an actor name, a verb and the texts of whichever
      of action object, join and target are set. */
  function Describe(actor: string, verb: string, actionObject: Option<string>, join: Option<string>,
                    target: Option<string>): string
  {
    if target.Some? then
      if actionObject.Some? then
        actor + " " + verb + " " + actionObject.value + " " + Show(join) + TargetGap + target.value
      else actor + " " + verb + " " + target.value
    else if actionObject.Some? then actor + " " + verb + " " + actionObject.value
    else actor + " " + verb
  }

  /** Every sentence opens with the actor and the verb. */
  lemma DescribeOpens(actor: string, verb: string, actionObject: Option<string>, join: Option<string>,
                      target: Option<string>)
    ensures var s := Describe(actor, verb, actionObject, join, target);
      |actor + " " + verb| <= |s| && s[..|actor + " " + verb|] == actor + " " + verb
  {
    var head := actor + " " + verb;
    var tail := if target.Some? && actionObject.Some? then " " + actionObject.value + " " + Show(join) + TargetGap + target.value
      else if target.Some? then " " + target.value
      else if actionObject.Some? then " " + actionObject.value
      else "";
    assert Describe(actor, verb, actionObject, join, target) == head + tail;
    assert (head + tail)[..|head|] == head;
  }

  /** With a target the sentence closes with the target, after a single
      space when there is no action object and after the join and the wide
      gap when there is; the join is never shown without both. */
  lemma DescribeCloses(actor: string, verb: string, actionObject: Option<string>, join: Option<string>,
                       target: string)
    ensures var s := Describe(actor, verb, actionObject, join, Some(target));
      var tail := if actionObject.Some? then " " + Show(join) + TargetGap + target else " " + target;
      |tail| <= |s| && s[|s| - |tail|..] == tail
    ensures actionObject.None? ==>
      Describe(actor, verb, actionObject, join, Some(target)) == Describe(actor, verb, None, None, Some(target))
  {
    var s := Describe(actor, verb, actionObject, join, Some(target));
    if actionObject.Some? {
      var front := actor + " " + verb + " " + actionObject.value;
      assert s == front + (" " + Show(join) + TargetGap + target);
    } else {
      assert s == actor + " " + verb + (" " + target);
    }
  }

  /** Without a target the join plays no part, and without an action
      object either the sentence is the actor and the verb alone. */
  lemma DescribeWithoutTarget(actor: string, verb: string, actionObject: Option<string>, join: Option<string>)
    ensures Describe(actor, verb, actionObject, join, None) == Describe(actor, verb, actionObject, None, None)
    ensures actionObject.None? ==> Describe(actor, verb, None, join, None) == actor + " " + verb
  {
  }

  /** In the four-part sentence a missing join prints as the word None. */
  lemma DescribeMissingJoin(actor: string, verb: string, actionObject: string, target: string)
    ensures Describe(actor, verb, Some(actionObject), None, Some(target))
      == actor + " " + verb + " " + actionObject + " None" + TargetGap + target
  {
    assert actor + " " + verb + " " + actionObject + " " + "None" == actor + " " + verb + " " + actionObject + " None";
  }

  /** The example in the model's documentation: a user who added five photos
      to an album. */
  lemma DescribeExample()
    ensures Describe("tim", "added 5 photos to the album", None, None, Some("Album Name"))
      == "tim added 5 photos to the album Album Name"
  {
    var verb := "added 5 photos to the album";
    assert "tim" + " " + verb == "tim added 5 photos to the album";
    assert "tim added 5 photos to the album" + " " + "Album Name" == "tim added 5 photos to the album Album Name";
  }

  /** Meta.ordering = ['-timestamp']: newer actions first. */
  predicate NewerFirst(a: Action, b: Action)
  {
    a.timestamp >= b.timestamp
  }

  lemma NewerFirstOrder()
    ensures TotalPreorder(NewerFirst)
  {
  }

  /** The stream as the database lists it: newest first, every action once. */
  function Timeline(actions: seq<Action>): (r: seq<Action>)
    ensures multiset(r) == multiset(actions)
    ensures forall i, j :: 0 <= i < j < |r| ==> r[i].timestamp >= r[j].timestamp
  {
    NewerFirstOrder();
    SortSorted(actions, NewerFirst);
    Sort(actions, NewerFirst)
  }

  /** The action points at one of `objs`. */
  predicate MentionsAny(a: Action, objs: set<ObjRef>)
  {
    (a.target.Some? && a.target.value in objs) || (a.actionObject.Some? && a.actionObject.value in objs)
  }

  /** The actions that point at none of `objs`, in table order. */
  function Unmentioning(actions: seq<Action>, objs: set<ObjRef>): (r: seq<Action>)
  {
    Filter(actions, (a: Action) => !MentionsAny(a, objs))
  }

  /** An action survives the deletion of `objs` exactly when it points at
      none of them. */
  lemma UnmentioningKeeps(actions: seq<Action>, objs: set<ObjRef>, a: Action)
    ensures a in Unmentioning(actions, objs) <==> a in actions && !MentionsAny(a, objs)
  {
    FilterMember(actions, (a: Action) => !MentionsAny(a, objs), a);
  }

  /** The action table. */
  class ActionLog {
    var actions: seq<Action>
    var nextId: int

    /** Every id is below the next id handed out, so new ids are fresh. */
    predicate Valid()
      reads this
    {
      forall k :: 0 <= k < |actions| ==> actions[k].id < nextId
    }

    constructor ()
      ensures Valid() && actions == []
    {
      actions := [];
      nextId := 1;
    }

    /** send_action(user, verb, action_object, join, target) at time `now`
        (the timestamp defaults to the current time): exactly one new action,
        carrying what it was given, and every earlier action unchanged. */
    method Send(now: int, userId: int, verb: string, actionObject: Option<ObjRef>, join: Option<string>,
                target: Option<ObjRef>)
      returns (a: Action)
      requires Valid()
      modifies this
      ensures Valid()
      ensures a == Action(old(nextId), now, userId, verb, join, actionObject, target)
      ensures actions == old(actions) + [a]
      ensures nextId == old(nextId) + 1
    {
      a := Action(nextId, now, userId, verb, join, actionObject, target);
      actions := actions + [a];
      nextId := nextId + 1;
    }

    /** Deleting the objects `objs` in one go: the actionable ones take the
        actions that point at them along; the others leave the table alone. */
    method DeleteFor(objs: set<ObjRef>)
      requires Valid()
      modifies this
      ensures Valid() && nextId == old(nextId)
      ensures actions == Unmentioning(old(actions), set o | o in objs && Actionable(o.kind))
    {
      var kept := Unmentioning(actions, set o | o in objs && Actionable(o.kind));
      forall k | 0 <= k < |kept|
        ensures kept[k].id < nextId
      {
        FilterMember(actions, (a: Action) => !MentionsAny(a, set o | o in objs && Actionable(o.kind)), kept[k]);
      }
      actions := kept;
    }
  }
}
