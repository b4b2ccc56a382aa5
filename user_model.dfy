/**
 * The `User` collection, reduced to the operations the handlers call. `online` stands for
 * whether the database answers: when it does not, every call fails, which the handlers
 * catch.
 */
module UserModel {
  import opened Wrappers
  import opened Documents

  datatype StoreResult<+T> = Done(value: T) | Failed

  /** What `user.comparePassword(candidate)` resolves to, or that it throws. */
  datatype Comparison = Match | Mismatch | Throws

  class Store {
    var docs: map<Id, Doc>
    var online: bool

    constructor (docs: map<Id, Doc>, online: bool)
      ensures this.docs == docs && this.online == online
    {
      this.docs := docs;
      this.online := online;
    }

    /** `User.find()`: every document. */
    method Find() returns (r: StoreResult<map<Id, Doc>>)
      ensures online ==> r == Done(docs)
      ensures !online ==> r == Failed
    {
      if !online { return Failed; }
      return Done(docs);
    }

    /** `User.findById(id)`: the document with that id, or null. */
    method FindById(id: Id) returns (r: StoreResult<Option<Doc>>)
      ensures !online ==> r == Failed
      ensures online ==> r.Done? && (r.value.Some? <==> id in docs)
      ensures r.Done? && r.value.Some? ==> r.value.value == docs[id]
    {
      if !online { return Failed; }
      if id in docs { return Done(Some(docs[id])); }
      return Done(None);
    }

    /**
     * `User.findOne({ email })`: some document the filter selects, or null when none does.
     * Which one is left open: emails are not unique in the collection.
     */
    method FindOne(email: Json) returns (r: StoreResult<Option<Id>>)
      ensures !online ==> r == Failed
      ensures online ==> r.Done?
      ensures r.Done? && r.value.Some? ==> r.value.value in docs && Matches(docs[r.value.value], email)
      ensures r.Done? && r.value.None? ==> forall id :: id in docs ==> !Matches(docs[id], email)
    {
      if !online { return Failed; }
      if exists id :: id in docs && Matches(docs[id], email) {
        var id :| id in docs && Matches(docs[id], email);
        return Done(Some(id));
      }
      return Done(None);
    }

    /** `doc.save()`: writes the whole document under its id, new or existing. */
    method Save(id: Id, doc: Doc) returns (r: StoreResult<Doc>)
      modifies this
      ensures online == old(online)
      ensures old(online) ==> r == Done(doc) && docs == old(docs)[id := doc]
      ensures !old(online) ==> r == Failed && docs == old(docs)
    {
      if !online { return Failed; }
      docs := docs[id := doc];
      return Done(doc);
    }

    /**
     * `User.findByIdAndUpdate(id, { $set: fields }, { new: true })`: the fields given replace
     * those of the same name, the others stay; the updated document is returned.
     */
    method FindByIdAndUpdate(id: Id, fields: Doc) returns (r: StoreResult<Option<Doc>>)
      modifies this
      ensures online == old(online)
      ensures !old(online) ==> r == Failed && docs == old(docs)
      ensures old(online) && id !in old(docs) ==> r == Done(None) && docs == old(docs)
      ensures old(online) && id in old(docs) ==>
        r == Done(Some(old(docs)[id] + fields)) && docs == old(docs)[id := old(docs)[id] + fields]
    {
      if !online { return Failed; }
      if id !in docs { return Done(None); }
      var updated := docs[id] + fields;
      docs := docs[id := updated];
      return Done(Some(updated));
    }

    /** `User.findByIdAndDelete(id)`: removes the document and returns it, or null. */
    method FindByIdAndDelete(id: Id) returns (r: StoreResult<Option<Doc>>)
      modifies this
      ensures online == old(online)
      ensures !old(online) ==> r == Failed && docs == old(docs)
      ensures old(online) && id !in old(docs) ==> r == Done(None) && docs == old(docs)
      ensures old(online) && id in old(docs) ==> r == Done(Some(old(docs)[id])) && docs == old(docs) - {id}
    {
      if !online { return Failed; }
      if id !in docs { return Done(None); }
      var gone := docs[id];
      docs := docs - {id};
      return Done(Some(gone));
    }
  }
}
