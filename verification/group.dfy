/** The group document and its pre-save hook, which makes the creator a member
    and an admin when the group is first stored. */
module GroupModel {
  import opened Common

  /** The schema's length limits for the name and the description, which the
      document library enforces on save. */
  const MaxNameLength := 100
  const MaxDescriptionLength := 500

  class Group {
    const id: GroupId
    var name: string
    var description: string
    const createdBy: UserId
    var members: seq<UserId>
    var admins: seq<UserId>
    var messages: seq<MessageId>
    /** Mongoose's `isNew`: true until the document has been saved once. */
    var isNew: bool

    constructor (id: GroupId, name: string, description: string, createdBy: UserId)
      ensures this.id == id && this.name == name && this.description == description
      ensures this.createdBy == createdBy
      ensures members == [] && admins == [] && messages == [] && isNew
    {
      this.id, this.name, this.description, this.createdBy := id, name, description, createdBy;
      members, admins, messages := [], [], [];
      isNew := true;
    }

    /** Every admin is also a member. */
    ghost predicate AdminsAreMembers()
      reads this
    {
      forall a :: a in admins ==> a in members
    }

    /** The pre-save hook: on a new document, push the creator onto `members`
        and onto `admins` unless already there; on an existing one, nothing. */
    method PreSave()
      modifies this`members, this`admins
      ensures isNew ==> members == AppendIfAbsent(old(members), createdBy)
      ensures isNew ==> admins == AppendIfAbsent(old(admins), createdBy)
      ensures !isNew ==> members == old(members) && admins == old(admins)
    {
      if isNew {
        if createdBy !in members {
          members := members + [createdBy];
        }
        if createdBy !in admins {
          admins := admins + [createdBy];
        }
      }
    }

    /** `save()`: run the hook, then store the document, which is then no longer new. */
    method Save()
      modifies this`members, this`admins, this`isNew
      ensures old(isNew) ==> members == AppendIfAbsent(old(members), createdBy)
      ensures old(isNew) ==> admins == AppendIfAbsent(old(admins), createdBy)
      ensures !old(isNew) ==> members == old(members) && admins == old(admins)
      ensures !isNew
      ensures old(isNew) ==> createdBy in members && createdBy in admins
      ensures old(AdminsAreMembers()) ==> AdminsAreMembers()
    {
      PreSave();
      isNew := false;
    }
  }
}
