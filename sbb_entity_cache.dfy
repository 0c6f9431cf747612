/**
 * The cache proxy of one SBB entity. Each child node of the entity's cache
 * node becomes a set or a map: the attached activity contexts, the event
 * masks per activity context, the CMP fields and the child relations.
 */
module SbbEntityCache {
  import opened Wrappers

  type ActivityContextHandle = string
  type EventTypeId = string
  type CmpFieldName = string
  type CmpValue = string
  type ChildRelation = string
  type SbbEntityId = string

  type EventMasks = map<ActivityContextHandle, set<EventTypeId>>
  type CmpFields = map<CmpFieldName, Option<CmpValue>>
  type ChildRelations = map<ChildRelation, set<SbbEntityId>>

  /** The masked event types of `ac`: empty when no mask is stored. */
  function MaskOf(masks: EventMasks, ac: ActivityContextHandle): set<EventTypeId>
  {
    if ac in masks then masks[ac] else {}
  }

  /**
   * The masks after `setEventMask(ac, mask)`: a non-empty mask replaces the
   * stored one, an empty one removes it; no other activity context changes.
   */
  function WithMask(masks: EventMasks, ac: ActivityContextHandle, mask: set<EventTypeId>): (r: EventMasks)
    ensures MaskOf(r, ac) == mask
    ensures ac in r <==> mask != {}
    ensures forall other :: other != ac ==> (other in r <==> other in masks)
    ensures forall other :: other != ac && other in r ==> r[other] == masks[other]
  {
    if mask != {} then masks[ac := mask] else masks - {ac}
  }

  /**
   * The masks after `updateEventMask(ac, mask)`: the new mask is the union of
   * the stored one (none counts as empty) and `mask`; the entry exists after,
   * even for an empty `mask`; no other activity context changes.
   */
  function WithMaskUpdate(masks: EventMasks, ac: ActivityContextHandle, mask: set<EventTypeId>): (r: EventMasks)
    ensures ac in r
    ensures MaskOf(r, ac) == MaskOf(masks, ac) + mask
    ensures ac !in masks ==> r[ac] == mask
    ensures forall other :: other != ac ==> (other in r <==> other in masks)
    ensures forall other :: other != ac && other in r ==> r[other] == masks[other]
  {
    if ac !in masks then masks[ac := mask] else masks[ac := masks[ac] + mask]
  }

  /** The value of a CMP field: null when it was never set. */
  function CmpFieldOf(fields: CmpFields, name: CmpFieldName): Option<CmpValue>
  {
    if name in fields then fields[name] else None
  }

  /** The CMP fields after `setCmpField(name, v)`: reading it back gives `v`, other fields keep theirs. */
  function WithCmpField(fields: CmpFields, name: CmpFieldName, v: Option<CmpValue>): (r: CmpFields)
    ensures CmpFieldOf(r, name) == v
    ensures forall other :: other != name ==> CmpFieldOf(r, other) == CmpFieldOf(fields, other)
    ensures r.Keys == fields.Keys + {name}
  {
    fields[name := v]
  }

  /** The ids in relation `rel`: empty when the relation has no node. */
  function MembersOf(rels: ChildRelations, rel: ChildRelation): set<SbbEntityId>
  {
    if rel in rels then rels[rel] else {}
  }

  /** The relations after `addChildRelationSbbEntity(rel, id)`: `id` joins `rel`, nothing else changes. */
  function WithChild(rels: ChildRelations, rel: ChildRelation, id: SbbEntityId): (r: ChildRelations)
    ensures MembersOf(r, rel) == MembersOf(rels, rel) + {id}
    ensures forall other :: other != rel ==> MembersOf(r, other) == MembersOf(rels, other)
    ensures r.Keys == rels.Keys + {rel}
  {
    rels[rel := MembersOf(rels, rel) + {id}]
  }

  /**
   * The relations after `removeChildRelationSbbEntity(rel, id)`: `id` leaves
   * `rel`, the other ids of `rel` and the other relations are untouched, and
   * an absent relation is not created.
   */
  function WithoutChild(rels: ChildRelations, rel: ChildRelation, id: SbbEntityId): (r: ChildRelations)
    ensures MembersOf(r, rel) == MembersOf(rels, rel) - {id}
    ensures forall other :: other != rel ==> MembersOf(r, other) == MembersOf(rels, other)
    ensures r.Keys == rels.Keys
  {
    if rel in rels then rels[rel := rels[rel] - {id}] else rels
  }

  /** The relations after `removeChildRelation(rel)`: `rel` is gone, the others are untouched. */
  function WithoutRelation(rels: ChildRelations, rel: ChildRelation): (r: ChildRelations)
    ensures MembersOf(r, rel) == {}
    ensures forall other :: other != rel ==> MembersOf(r, other) == MembersOf(rels, other)
    ensures r.Keys == rels.Keys - {rel}
  {
    rels - {rel}
  }

  /** Every child SBB entity id, over all relations. */
  ghost function AllChildren(rels: ChildRelations): set<SbbEntityId>
  {
    set rel, id | rel in rels && id in rels[rel] :: id
  }

  /** After an id is added to some relation, it is among all the children. */
  lemma AddedChildIsAChild(rels: ChildRelations, rel: ChildRelation, id: SbbEntityId)
    ensures AllChildren(WithChild(rels, rel, id)) == AllChildren(rels) + {id}
  {
    var r := WithChild(rels, rel, id);
    forall x | x in AllChildren(rels) + {id}
      ensures x in AllChildren(r)
    {
      if x == id {
        assert id in r[rel];
      } else {
        var rl :| rl in rels && x in rels[rl];
        assert x in MembersOf(r, rl);
      }
    }
  }

  /** Removing a whole relation leaves exactly the ids some other relation still holds. */
  lemma RemovedRelationChildren(rels: ChildRelations, rel: ChildRelation)
    ensures AllChildren(WithoutRelation(rels, rel)) ==
              set other, id | other in rels && other != rel && id in rels[other] :: id
  {
    var r := WithoutRelation(rels, rel);
    var kept := set other, id | other in rels && other != rel && id in rels[other] :: id;
    forall x | x in kept
      ensures x in AllChildren(r)
    {
      var other :| other in rels && other != rel && x in rels[other];
      assert x in r[other];
    }
  }

  class SbbEntityCacheData {
    var attachedActivityContexts: set<ActivityContextHandle>
    var eventMasks: EventMasks
    var cmpFields: CmpFields
    var childRelations: ChildRelations

    /** A new entity: every child node is still absent. */
    constructor ()
      ensures attachedActivityContexts == {} && eventMasks == map[]
      ensures cmpFields == map[] && childRelations == map[]
    {
      attachedActivityContexts := {};
      eventMasks := map[];
      cmpFields := map[];
      childRelations := map[];
    }

    method AttachActivityContext(ac: ActivityContextHandle)
      modifies this`attachedActivityContexts
      ensures attachedActivityContexts == old(attachedActivityContexts) + {ac}
    {
      attachedActivityContexts := attachedActivityContexts + {ac};
    }

    method DetachActivityContext(ac: ActivityContextHandle)
      modifies this`attachedActivityContexts
      ensures attachedActivityContexts == old(attachedActivityContexts) - {ac}
    {
      attachedActivityContexts := attachedActivityContexts - {ac};
    }

    function GetActivityContexts(): set<ActivityContextHandle>
      reads this
    {
      attachedActivityContexts
    }

    /** The mask stored for `ac`; the empty set when none is stored. */
    function GetMaskedEventTypes(ac: ActivityContextHandle): (mask: set<EventTypeId>)
      reads this
      ensures ac !in eventMasks ==> mask == {}
      ensures ac in eventMasks ==> mask == eventMasks[ac]
    {
      MaskOf(eventMasks, ac)
    }

    method SetEventMask(ac: ActivityContextHandle, mask: set<EventTypeId>)
      modifies this`eventMasks
      ensures eventMasks == WithMask(old(eventMasks), ac, mask)
      ensures GetMaskedEventTypes(ac) == mask
    {
      if mask != {} {
        eventMasks := eventMasks[ac := mask];
      } else {
        eventMasks := eventMasks - {ac};
      }
    }

    method UpdateEventMask(ac: ActivityContextHandle, mask: set<EventTypeId>)
      modifies this`eventMasks
      ensures eventMasks == WithMaskUpdate(old(eventMasks), ac, mask)
      ensures GetMaskedEventTypes(ac) == old(GetMaskedEventTypes(ac)) + mask
    {
      if ac !in eventMasks {
        eventMasks := eventMasks[ac := mask];
      } else {
        eventMasks := eventMasks[ac := eventMasks[ac] + mask];
      }
    }

    method SetCmpField(name: CmpFieldName, v: Option<CmpValue>)
      modifies this`cmpFields
      ensures cmpFields == WithCmpField(old(cmpFields), name, v)
      ensures GetCmpField(name) == v
    {
      cmpFields := cmpFields[name := v];
    }

    /** The value stored for the field; null when the field was never set. */
    function GetCmpField(name: CmpFieldName): (v: Option<CmpValue>)
      reads this
      ensures name !in cmpFields ==> v.None?
      ensures name in cmpFields ==> v == cmpFields[name]
    {
      CmpFieldOf(cmpFields, name)
    }

    /** The ids in the relation; the empty set when the relation has no node. */
    function GetChildRelationSbbEntities(rel: ChildRelation): (ids: set<SbbEntityId>)
      reads this
      ensures rel !in childRelations ==> ids == {}
      ensures rel in childRelations ==> ids == childRelations[rel]
    {
      MembersOf(childRelations, rel)
    }

    /** The number of ids in `rel`, 0 for an absent relation. */
    function ChildRelationSbbEntitiesSize(rel: ChildRelation): (n: nat)
      reads this
      ensures n == |GetChildRelationSbbEntities(rel)|
      ensures rel !in childRelations ==> n == 0
    {
      if rel in childRelations then |childRelations[rel]| else 0
    }

    function ChildRelationHasSbbEntity(rel: ChildRelation, id: SbbEntityId): (b: bool)
      reads this
      ensures b <==> id in GetChildRelationSbbEntities(rel)
    {
      rel in childRelations && id in childRelations[rel]
    }

    method AddChildRelationSbbEntity(rel: ChildRelation, id: SbbEntityId)
      modifies this`childRelations
      ensures childRelations == WithChild(old(childRelations), rel, id)
      ensures ChildRelationHasSbbEntity(rel, id)
    {
      if rel !in childRelations {
        childRelations := childRelations[rel := {}];
      }
      childRelations := childRelations[rel := childRelations[rel] + {id}];
    }

    method RemoveChildRelationSbbEntity(rel: ChildRelation, id: SbbEntityId)
      modifies this`childRelations
      ensures childRelations == WithoutChild(old(childRelations), rel, id)
      ensures !ChildRelationHasSbbEntity(rel, id)
    {
      if rel in childRelations {
        childRelations := childRelations[rel := childRelations[rel] - {id}];
      }
    }

    method RemoveChildRelation(rel: ChildRelation)
      modifies this`childRelations
      ensures childRelations == WithoutRelation(old(childRelations), rel)
      ensures ChildRelationSbbEntitiesSize(rel) == 0
    {
      childRelations := childRelations - {rel};
    }

    /** Collects the ids of every relation into one set; empty when there is no relation. */
    method GetAllChildSbbEntities() returns (result: set<SbbEntityId>)
      ensures result == AllChildren(childRelations)
      ensures childRelations == map[] ==> result == {}
    {
      result := {};
      var pending := childRelations.Keys;
      while pending != {}
        invariant pending <= childRelations.Keys
        invariant result == set rel, id | rel in childRelations && rel !in pending && id in childRelations[rel] :: id
        decreases pending
      {
        var rel :| rel in pending;
        var ids := childRelations[rel];
        ghost var before := result;
        while ids != {}
          invariant ids <= childRelations[rel]
          invariant result == before + (childRelations[rel] - ids)
          decreases ids
        {
          var id :| id in ids;
          result := result + {id};
          ids := ids - {id};
        }
        pending := pending - {rel};
      }
    }
  }
}
