/** The model registry (`modelCollection`), model construction and sequences
    (hexya/models/registry.go). The process-wide `Registry` variable is passed
    explicitly as `reg`. */
module Registry {
  import opened Wrappers
  import opened GoValues
  import opened Models

  /** The metadata of a database sequence. */
  datatype Sequence = Sequence(name: string, json: string)

  /** Directory of models by name and by table name, and of sequences by name. */
  class ModelCollection {
    var registryByName: map<string, Model>
    var registryByTableName: map<string, Model>
    var sequences: map<string, Sequence>

    /** Every entry is keyed by its own name (resp. table name), and every
        model of the table-name map is registered under its name. Table names
        need not be unique: `Add` may overwrite a table-name entry. */
    ghost predicate Valid()
      reads this
    {
      && (forall k :: k in registryByName ==> registryByName[k].name == k)
      && (forall k :: k in registryByTableName ==>
            && registryByTableName[k].tableName == k
            && registryByTableName[k].name in registryByName
            && registryByName[registryByTableName[k].name] == registryByTableName[k])
      && (forall k :: k in sequences ==> sequences[k].name == k)
    }

    /** `newModelCollection`. */
    constructor ()
      ensures Valid()
      ensures registryByName == map[] && registryByTableName == map[] && sequences == map[]
    {
      registryByName := map[];
      registryByTableName := map[];
      sequences := map[];
    }

    /** `Get`: the model registered under `nameOrJSON` as a name, or else as a
        table name. What it finds carries `nameOrJSON` as its name or as its
        table name. */
    function Get(nameOrJSON: string): (r: Option<Model>)
      reads this
      ensures r.None? <==> nameOrJSON !in registryByName && nameOrJSON !in registryByTableName
      ensures nameOrJSON in registryByName ==> r == Some(registryByName[nameOrJSON])
      ensures Valid() && r.Some? ==> r.value.name == nameOrJSON || r.value.tableName == nameOrJSON
    {
      if nameOrJSON in registryByName then Some(registryByName[nameOrJSON])
      else if nameOrJSON in registryByTableName then Some(registryByTableName[nameOrJSON])
      else None
    }

    /** `MustGet`: as `Get`, but an unknown model is fatal. */
    function MustGet(nameOrJSON: string): (r: Result<Model>)
      reads this
      ensures r.Success? <==> Get(nameOrJSON).Some?
      ensures r.Success? ==> Get(nameOrJSON) == Some(r.value)
    {
      match Get(nameOrJSON)
      case Some(mi) => Success(mi)
      case None => Failure("Unknown model")
    }

    /** `GetSequence`: a single lookup by name. */
    function GetSequence(nameOrJSON: string): (r: Option<Sequence>)
      reads this
      ensures r.Some? <==> nameOrJSON in sequences
      ensures r.Some? ==> r.value == sequences[nameOrJSON]
      ensures Valid() && r.Some? ==> r.value.name == nameOrJSON
    {
      if nameOrJSON in sequences then Some(sequences[nameOrJSON]) else None
    }

    /** `MustGetSequence`: as `GetSequence`, but an unknown sequence is fatal. */
    function MustGetSequence(nameOrJSON: string): (r: Result<Sequence>)
      reads this
      ensures r.Success? <==> GetSequence(nameOrJSON).Some?
      ensures r.Success? ==> GetSequence(nameOrJSON) == Some(r.value)
    {
      match GetSequence(nameOrJSON)
      case Some(s) => Success(s)
      case None => Failure("Unknown sequence")
    }

    /** `add`: fatal when the name of `mi` is already known, as a name or as
        a table name; otherwise registers `mi` under its name and its table
        name (replacing any model that had that table name) and makes `mi`
        the owner of its fields and methods. */
    method Add(mi: Model) returns (res: Outcome)
      requires Valid()
      modifies this, mi.fields`model, mi.methods`model
      ensures Valid() && sequences == old(sequences)
      ensures res.Fail? <==> old(Get(mi.name)).Some?
      ensures res.Fail? ==> unchanged(this) && unchanged(mi.fields, mi.methods)
      ensures res.Pass? ==>
        && registryByName == old(registryByName)[mi.name := mi]
        && registryByTableName == old(registryByTableName)[mi.tableName := mi]
        && mi.fields.model == mi && mi.methods.model == mi
      ensures res.Pass? ==> Get(mi.name) == Some(mi)
    {
      if Get(mi.name).Some? {
        return Fail("Trying to add already existing model");
      }
      registryByName := registryByName[mi.name := mi];
      registryByTableName := registryByTableName[mi.tableName := mi];
      mi.methods.model := mi;
      mi.fields.model := mi;
      res := Pass;
    }

    /** A registered model is found under its name. */
    lemma FoundByName(mi: Model)
      requires Valid() && mi in registryByName.Values
      ensures MustGet(mi.name) == Success(mi)
    {
    }

    /** A model is found under its table name when it is the last model
        registered with that table name and no model is named like it. */
    lemma FoundByTableName(mi: Model)
      requires Valid()
      requires mi.tableName in registryByTableName && registryByTableName[mi.tableName] == mi
      requires mi.tableName !in registryByName || registryByName[mi.tableName] == mi
      ensures MustGet(mi.tableName) == Success(mi)
    {
    }

    /** A model named like the table name of another one hides it: `Get` on
        that table name finds the model of that name. */
    lemma NameHidesTableName(a: Model, b: Model)
      requires Valid() && b in registryByName.Values && b.name == a.tableName
      ensures Get(a.tableName) == Some(b)
    {
    }
  }

  /** The mandatory primary key of `mi`. */
  function PrimaryKey(mi: Model): Field
  {
    Field("ID", "id", mi, Integer, null, true, true, Int64Type)
  }

  /** `mi` is as `createModel` leaves it: the given name, options and table
      name, its `ID` primary key as only field, and owner of its collections. */
  ghost predicate IsCreated(mi: Model, name: string, options: ModelOption, tableName: string)
    reads mi.fields, mi.methods
  {
    && mi.name == name && mi.options == options && mi.tableName == tableName
    && mi.fields.registryByName == map["ID" := PrimaryKey(mi)]
    && mi.fields.registryByJSON == map["id" := PrimaryKey(mi)]
    && mi.fields.model == mi && mi.methods.model == mi
  }

  /** What a freshly created model declares: the `ID` field (json `id`,
      required, no-copy, an integer stored as `int64`), no `Parent` field,
      and the option tests of its own options. */
  lemma CreatedModelFields(mi: Model, name: string, options: ModelOption, tableName: string)
    requires IsCreated(mi, name, options, tableName)
    ensures mi.fields.Get("ID") == Some(PrimaryKey(mi)) && mi.fields.Get("id") == Some(PrimaryKey(mi))
    ensures var pk := PrimaryKey(mi);
      pk.name == "ID" && pk.json == "id" && pk.required && pk.noCopy &&
      pk.fieldType == Integer && pk.goType == Int64Type && pk.relatedModel == null
    ensures !mi.HasParentField()
    ensures mi.IsMixin() == HasOption(options, MixinModel)
    ensures mi.IsManual() == HasOption(options, ManualModel)
    ensures mi.IsSystem() == HasOption(options, SystemModel)
    ensures mi.IsM2MLink() == HasOption(options, Many2ManyLinkModel)
  {
  }

  /** `createModel`: builds the model with table name `snakeCase(name)`, no
      mixins and the `ID` primary key, then registers it; fatal, with the
      registry unchanged, when the name is already known. */
  method CreateModel(reg: ModelCollection, name: string, options: ModelOption, snakeCase: string -> string)
    returns (r: Result<Model>)
    requires reg.Valid()
    modifies reg
    ensures reg.Valid() && reg.sequences == old(reg.sequences)
    ensures r.Failure? <==> old(reg.Get(name)).Some?
    ensures r.Failure? ==> unchanged(reg)
    ensures r.Success? ==>
      && fresh(r.value) && fresh(r.value.fields) && fresh(r.value.methods)
      && IsCreated(r.value, name, options, snakeCase(name)) && r.value.mixins == []
      && reg.registryByName == old(reg.registryByName)[name := r.value]
      && reg.registryByTableName == old(reg.registryByTableName)[snakeCase(name) := r.value]
  {
    var fields := new FieldsCollection();
    var methods := new MethodsCollection();
    var mi := new Model(name, options, snakeCase(name), fields, methods);
    fields.Add(PrimaryKey(mi));
    var added := reg.Add(mi);
    if added.Fail? {
      return Failure(added.error);
    }
    r := Success(mi);
  }

  /** `NewModel`: a plain model (no option) that inherits `ModelMixin`. Fatal
      when the name is known or, once the model is registered, when
      `ModelMixin` is not. */
  method NewModel(reg: ModelCollection, name: string, snakeCase: string -> string) returns (r: Result<Model>)
    requires reg.Valid()
    modifies reg
    ensures reg.Valid() && reg.sequences == old(reg.sequences)
    ensures old(reg.Get(name)).Some? ==> r.Failure? && unchanged(reg)
    ensures old(reg.Get(name)).None? ==>
      && name in reg.registryByName
      && var mi := reg.registryByName[name];
      && fresh(mi) && IsCreated(mi, name, 0, snakeCase(name))
      && reg.registryByName == old(reg.registryByName)[name := mi]
      && reg.registryByTableName == old(reg.registryByTableName)[snakeCase(name) := mi]
      && (r.Success? <==> reg.Get("ModelMixin").Some?)
      && (r.Success? ==> r.value == mi && mi.mixins == [reg.Get("ModelMixin").value])
  {
    r := CreateModel(reg, name, 0, snakeCase);
    if r.Failure? {
      return;
    }
    var mixin := reg.MustGet("ModelMixin");
    if mixin.Failure? {
      return Failure(mixin.error);
    }
    r.value.InheritModel(mixin.value);
  }

  /** `NewMixinModel`: a model with the mixin option and no mixin of its own. */
  method NewMixinModel(reg: ModelCollection, name: string, snakeCase: string -> string) returns (r: Result<Model>)
    requires reg.Valid()
    modifies reg
    ensures reg.Valid() && reg.sequences == old(reg.sequences)
    ensures r.Failure? <==> old(reg.Get(name)).Some?
    ensures r.Failure? ==> unchanged(reg)
    ensures r.Success? ==>
      && fresh(r.value) && IsCreated(r.value, name, MixinModel, snakeCase(name)) && r.value.mixins == []
      && reg.registryByName == old(reg.registryByName)[name := r.value]
      && reg.registryByTableName == old(reg.registryByTableName)[snakeCase(name) := r.value]
  {
    r := CreateModel(reg, name, MixinModel, snakeCase);
  }

  /** `NewTransientModel`: a transient model that inherits `BaseMixin`. */
  method NewTransientModel(reg: ModelCollection, name: string, snakeCase: string -> string) returns (r: Result<Model>)
    requires reg.Valid()
    modifies reg
    ensures reg.Valid() && reg.sequences == old(reg.sequences)
    ensures old(reg.Get(name)).Some? ==> r.Failure? && unchanged(reg)
    ensures old(reg.Get(name)).None? ==>
      && name in reg.registryByName
      && var mi := reg.registryByName[name];
      && fresh(mi) && IsCreated(mi, name, TransientModel, snakeCase(name))
      && reg.registryByName == old(reg.registryByName)[name := mi]
      && reg.registryByTableName == old(reg.registryByTableName)[snakeCase(name) := mi]
      && (r.Success? <==> reg.Get("BaseMixin").Some?)
      && (r.Success? ==> r.value == mi && mi.mixins == [reg.Get("BaseMixin").value])
  {
    r := CreateModel(reg, name, TransientModel, snakeCase);
    if r.Failure? {
      return;
    }
    var mixin := reg.MustGet("BaseMixin");
    if mixin.Failure? {
      return Failure(mixin.error);
    }
    r.value.InheritModel(mixin.value);
  }

  /** `NewManualModel`: a manual model (no table generated) that inherits
      `CommonMixin`. */
  method NewManualModel(reg: ModelCollection, name: string, snakeCase: string -> string) returns (r: Result<Model>)
    requires reg.Valid()
    modifies reg
    ensures reg.Valid() && reg.sequences == old(reg.sequences)
    ensures old(reg.Get(name)).Some? ==> r.Failure? && unchanged(reg)
    ensures old(reg.Get(name)).None? ==>
      && name in reg.registryByName
      && var mi := reg.registryByName[name];
      && fresh(mi) && IsCreated(mi, name, ManualModel, snakeCase(name))
      && reg.registryByName == old(reg.registryByName)[name := mi]
      && reg.registryByTableName == old(reg.registryByTableName)[snakeCase(name) := mi]
      && (r.Success? <==> reg.Get("CommonMixin").Some?)
      && (r.Success? ==> r.value == mi && mi.mixins == [reg.Get("CommonMixin").value])
  {
    r := CreateModel(reg, name, ManualModel, snakeCase);
    if r.Failure? {
      return;
    }
    var mixin := reg.MustGet("CommonMixin");
    if mixin.Failure? {
      return Failure(mixin.error);
    }
    r.value.InheritModel(mixin.value);
  }

  /** `NewSequence`: registers, replacing any sequence of that name, the
      sequence `name` with json name `snakeCase(name) + "_manseq"`. */
  method NewSequence(reg: ModelCollection, name: string, snakeCase: string -> string) returns (s: Sequence)
    requires reg.Valid()
    modifies reg`sequences
    ensures reg.Valid()
    ensures s.name == name && s.json == snakeCase(name) + "_manseq"
    ensures reg.sequences == old(reg.sequences)[name := s]
    ensures reg.MustGetSequence(name) == Success(s)
  {
    s := Sequence(name, snakeCase(name) + "_manseq");
    reg.sequences := reg.sequences[name := s];
  }

  /** Two models whose registration leaves the table name of the second one
      resolving to the first: `MustGet(m.tableName) == m` does not hold for
      every registered `m`. */
  method TableNameShadowing(snakeCase: string -> string) returns (reg: ModelCollection, a: Model, b: Model)
    requires snakeCase("foo") == "foo" && snakeCase("Foo") == "foo"
    ensures reg.Valid() && a in reg.registryByName.Values && b in reg.registryByName.Values
    ensures a.tableName == "foo" && reg.MustGet(a.tableName) == Success(b) && a != b
  {
    reg := new ModelCollection();
    var rb := CreateModel(reg, "foo", 0, snakeCase);
    var ra := CreateModel(reg, "Foo", 0, snakeCase);
    a, b := ra.value, rb.value;
    assert reg.registryByName["Foo"] == a && reg.registryByName["foo"] == b;
  }
}
