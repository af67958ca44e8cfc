/**
 * The Django view and the Laravel controller side by side. Both validate
 * with their language's truthiness; the two notions differ only on the
 * string "0", and the update and delete handlers of the two differ on a
 * key value that is present but falsy. These lemmas state where the two
 * implementations agree and exhibit the inputs on which they do not.
 */
module Compare {
  import opened Json
  import opened Text
  import opened Envelope
  import opened Dispatch
  import Views
  import Controller

  /** PHP truthiness is Python truthiness with "0" made false as well. */
  lemma TruthinessDiffersOnlyOnZeroString(v: Value)
    ensures Controller.Truthy(v) ==> Views.Truthy(v)
    ensures Views.Truthy(v) && !Controller.Truthy(v) <==> v == Str("0")
  {
  }

  /** A URL the Laravel controller accepts is accepted by the Django view. */
  lemma TargetPresentAgrees(table: string, kind: string)
    ensures Controller.TargetPresent(table, kind) ==> Views.TargetPresent(table, kind)
    ensures Views.TargetPresent(table, kind) && !Controller.TargetPresent(table, kind) <==>
      Views.TargetPresent(table, kind) && (table == "0" || Lower(kind) == "0")
  {
  }

  /** The table "0" passes the Django check and fails the Laravel one. */
  lemma TableZeroDiffers()
    ensures Views.TargetPresent("0", "get") && !Controller.TargetPresent("0", "get")
  {
    assert Lower("get") != "" by {
      assert |Lower("get")| == 3;
    }
  }

  /** Insert data the Django view accepts (a non-empty object) is accepted by Laravel too. */
  lemma InsertAcceptanceAgrees(data: Body)
    ensures Views.InsertAccepts(data) ==> Controller.InsertAccepts(data)
    ensures Controller.InsertAccepts(data) && !Views.InsertAccepts(data) <==>
      var d := Views.Field(data, "data"); d.Array? && d.items != []
  {
  }

  /** A non-empty list under `data` is inserted by Laravel and rejected by Django. */
  lemma ListInsertDiffers(db: Db)
    ensures var data := [("data", Array([Int(1)]))];
      && Controller.InsertExecute(data, db).executed.Some?
      && Views.InsertAction(data, db) == Rejected(INSERT_REQUIRED)
  {
  }

  /** Every update and delete request Laravel lets through also passes the Django check. */
  lemma KeyAcceptanceAgrees(data: Body)
    ensures Controller.UpdateFieldsPresent(data) ==> Views.UpdateFieldsPresent(data)
    ensures Controller.DeleteFieldsPresent(data) ==> Views.DeleteFieldsPresent(data)
    ensures Controller.KeyWhere(data) != [] ==>
      Views.KeyUsed(Views.Field(data, "primary_key_field"), Views.Field(data, "primary_key_value"))
  {
  }

  /**
   * A key value of 0 under a key field both accept: Django deletes the row
   * whose key is 0, lets the update past its presence check whenever there
   * is data, and selects by it, while Laravel rejects the update and the
   * delete and drops the key condition from the select.
   */
  lemma ZeroKeyDiffers(data: Body, db: Db)
    requires Views.Field(data, "primary_key_value") == Int(0)
    requires Controller.Truthy(Views.Field(data, "primary_key_field"))
    ensures Views.DeleteAction(data, db).executed.Some?
    ensures Controller.DeleteExecute(data, db) == Rejected(DELETE_REQUIRED)
    ensures Views.UpdateFieldsPresent(data) <==> Views.Truthy(Views.Field(data, "data"))
    ensures Controller.UpdateExecute(data, db) == Rejected(UPDATE_REQUIRED)
    ensures Views.KeyUsed(Views.Field(data, "primary_key_field"), Views.Field(data, "primary_key_value"))
    ensures Controller.KeyWhere(data) == []
  {
    TruthinessDiffersOnlyOnZeroString(Views.Field(data, "primary_key_field"));
  }

  /** When both updates reach the database, they answer with the same envelope. */
  lemma UpdateOutcomesAgree(data: Body, db: Db)
    requires Views.UpdateAction(data, db).executed.Some?
    requires Controller.UpdateExecute(data, db).executed.Some?
    ensures Views.UpdateAction(data, db).outcome == Controller.UpdateExecute(data, db).outcome
  {
  }

  /** When both deletes reach the database, they answer with the same envelope. */
  lemma DeleteOutcomesAgree(data: Body, db: Db)
    requires Views.DeleteAction(data, db).executed.Some?
    requires Controller.DeleteExecute(data, db).executed.Some?
    ensures Views.DeleteAction(data, db).outcome == Controller.DeleteExecute(data, db).outcome
  {
  }

  /** Both selects report the rows returned and their number. */
  lemma GetOutcomesAgree(data: Body, db: Db)
    requires Views.Filters(data).Object?
    ensures Views.GetSpec(data, db).outcome == Controller.Execute(Get, data, db).outcome
    ensures Views.GetSpec(data, db).outcome.envelope.count == |db.rows|
  {
    var listing := Reply(200, Listing(|db.rows|, db.rows));
    assert Views.GetSpec(data, db).outcome == listing;
    assert Controller.Execute(Get, data, db) == Exchange(Some(Controller.SelectCall(data)), listing);
  }

  /** Both answer a validation failure with the same status code and message. */
  lemma RejectionsAgree(a: Action, data: Body, db: Db)
    requires a != Get
    requires Views.Handler(a, data, db).outcome.Reply? && Views.Handler(a, data, db).outcome.code == 400
    requires Controller.Execute(a, data, db).outcome.Reply? && Controller.Execute(a, data, db).outcome.code == 400
    ensures Views.Handler(a, data, db).executed.None? && Controller.Execute(a, data, db).executed.None?
    ensures Views.Handler(a, data, db).outcome == Controller.Execute(a, data, db).outcome
  {
  }
}
