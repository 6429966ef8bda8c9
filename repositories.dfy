/**
 * The feedback and comment tables behind their Panache repositories. A table holds rows as
 * values, by primary key, and keeps the order in which rows were inserted (the order an
 * unsorted query returns). Entity objects are loaded from a row and written back by `Persist`.
 */
module Repositories {
  import opened Ids
  import opened FeedbackEntities
  import opened CommentEntities
  import opened FeedbackSpec

  class FeedbackRepository {
    var rows: map<Id, FeedbackRecord>
    var order: seq<Id>

    constructor (rows: map<Id, FeedbackRecord>, order: seq<Id>)
      ensures this.rows == rows && this.order == order
    {
      this.rows := rows;
      this.order := order;
    }

    /** `persist`: inserts a new row at the end of the table, or writes a managed entity back in place. */
    method Persist(id: Id, row: FeedbackRecord)
      modifies this
      ensures rows == old(rows)[id := row]
      ensures order == if id in old(rows) then old(order) else old(order) + [id]
    {
      if id !in rows {
        order := order + [id];
      }
      rows := rows[id := row];
    }

    /** `deleteById`. */
    method DeleteById(id: Id)
      modifies this
      ensures rows == old(rows) - {id}
      ensures order == Without(old(order), id)
    {
      rows := rows - {id};
      order := Without(order, id);
    }
  }

  class CommentRepository {
    var rows: map<Id, CommentRecord>
    var order: seq<Id>

    constructor (rows: map<Id, CommentRecord>, order: seq<Id>)
      ensures this.rows == rows && this.order == order
    {
      this.rows := rows;
      this.order := order;
    }

    /** `persist`: inserts a new row at the end of the table, or writes a managed entity back in place. */
    method Persist(id: Id, row: CommentRecord)
      modifies this
      ensures rows == old(rows)[id := row]
      ensures order == if id in old(rows) then old(order) else old(order) + [id]
    {
      if id !in rows {
        order := order + [id];
      }
      rows := rows[id := row];
    }
  }
}
