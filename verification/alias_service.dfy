/**
  The alias service: `AliasService.createAlias` rejects a name that is
  already registered, otherwise saves a new alias and publishes an
  `AliasRegisteredEvent` through `KafkaProducerService`.
 */
module AliasService {
  import opened Outcome

  /** An alias row; `id` is assigned by the database on insert. */
  datatype Alias = Alias(id: nat, name: string, password: string)

  /** The event published after a registration: the saved alias's id and name. */
  datatype AliasRegisteredEvent = AliasRegisteredEvent(id: nat, name: string)

  /** A record sent to a Kafka topic. */
  datatype Message = Message(topic: string, event: AliasRegisteredEvent)

  const AliasCreatedTopic := "alias-created-topic"

  datatype AliasError = DuplicateAlias(message: string)

  const DuplicateAliasMessage := "Alias name already exists"

  /**
    The alias table keyed by id, the next identity value the database will
    hand out, and every message published so far, oldest first.
   */
  datatype Registry = Registry(rows: map<nat, Alias>, nextId: nat, published: seq<Message>)

  /** Each row is stored under its own id, and every id is below the next identity value. */
  predicate Valid(reg: Registry) {
    forall id :: id in reg.rows ==> reg.rows[id].id == id && id < reg.nextId
  }

  /** At most one alias per name. */
  predicate UniqueNames(reg: Registry) {
    forall i, j :: i in reg.rows && j in reg.rows && reg.rows[i].name == reg.rows[j].name ==> i == j
  }

  /** The ids of the rows named `name`. */
  function IdsNamed(reg: Registry, name: string): set<nat> {
    set id | id in reg.rows && reg.rows[id].name == name
  }

  /** `AliasRepository.existsByName`: some row carries `name`. */
  function ExistsByName(reg: Registry, name: string): (r: bool)
    ensures r <==> IdsNamed(reg, name) != {}
  {
    var found := exists id :: id in reg.rows && reg.rows[id].name == name;
    assert forall id :: id in reg.rows && reg.rows[id].name == name ==> id in IdsNamed(reg, name);
    found
  }

  /**
    `AliasRepository.save` of a new alias: the row is stored under the next
    identity value, which then advances; no published message changes. In a
    valid registry that id is unused, so every existing row stays as it was.
   */
  function Insert(reg: Registry, name: string, password: string): (r: Registry)
    ensures r.nextId == reg.nextId + 1 && r.published == reg.published
    ensures r.rows.Keys == reg.rows.Keys + {reg.nextId}
    ensures r.rows[reg.nextId] == Alias(reg.nextId, name, password)
    ensures Valid(reg) ==> reg.nextId !in reg.rows && Valid(r)
    ensures Valid(reg) ==> forall id :: id in reg.rows ==> r.rows[id] == reg.rows[id]
  {
    reg.(rows := reg.rows[reg.nextId := Alias(reg.nextId, name, password)], nextId := reg.nextId + 1)
  }

  /**
    `KafkaProducerService.sendAliasRegisteredEvent`: one event carrying the
    alias's id and name, on the alias-created topic; the table is untouched.
   */
  function SendAliasRegisteredEvent(reg: Registry, alias: Alias): (r: Registry)
    ensures r.rows == reg.rows && r.nextId == reg.nextId
    ensures |r.published| == |reg.published| + 1 && r.published[..|reg.published|] == reg.published
    ensures r.published[|reg.published|].topic == AliasCreatedTopic
    ensures r.published[|reg.published|].event.id == alias.id
    ensures r.published[|reg.published|].event.name == alias.name
  {
    reg.(published := reg.published + [Message(AliasCreatedTopic, AliasRegisteredEvent(alias.id, alias.name))])
  }

  /**
    `AliasService.createAlias`. On `Err` the caller's registry is unchanged.
    On success exactly one row, named `name`, is added under a fresh id, no
    other row changes, and exactly one event carrying that id and name is
    published.
   */
  function CreateAlias(reg: Registry, name: string, password: string): (r: Result<Registry, AliasError>)
    requires Valid(reg)
    ensures r.Err? <==> ExistsByName(reg, name)
    ensures r.Err? ==> r.error == DuplicateAlias(DuplicateAliasMessage)
    ensures r.Ok? ==> Valid(r.value) && r.value.nextId > reg.nextId
    ensures r.Ok? ==> |r.value.rows| == |reg.rows| + 1 && reg.rows.Keys < r.value.rows.Keys
    ensures r.Ok? ==> forall id :: id in reg.rows ==> r.value.rows[id] == reg.rows[id]
    ensures r.Ok? ==> forall id :: id in r.value.rows && id !in reg.rows ==> r.value.rows[id] == Alias(id, name, password)
    ensures r.Ok? ==> |IdsNamed(r.value, name)| == 1
    ensures r.Ok? ==> |r.value.published| == |reg.published| + 1
                      && r.value.published[..|reg.published|] == reg.published
    ensures r.Ok? ==> var m := r.value.published[|reg.published|];
                      && m.topic == AliasCreatedTopic && m.event.name == name
                      && m.event.id in r.value.rows && m.event.id !in reg.rows
    ensures r.Ok? && UniqueNames(reg) ==> UniqueNames(r.value)
  {
    if ExistsByName(reg, name) then
      Err(DuplicateAlias(DuplicateAliasMessage))
    else
      var saved := Insert(reg, name, password);
      assert IdsNamed(saved, name) == {reg.nextId};
      assert saved.rows.Keys == reg.rows.Keys + {reg.nextId};
      Ok(SendAliasRegisteredEvent(saved, saved.rows[reg.nextId]))
  }

  /** Once a name is registered, every later registration of it fails, whatever the password. */
  lemma SecondRegistrationFails(reg: Registry, name: string, password: string, password': string)
    requires Valid(reg)
    requires CreateAlias(reg, name, password).Ok?
    ensures CreateAlias(CreateAlias(reg, name, password).value, name, password').Err?
  {
    var reg' := CreateAlias(reg, name, password).value;
    assert |IdsNamed(reg', name)| == 1;
    var id :| id in IdsNamed(reg', name);
    assert reg'.rows[id].name == name;
  }

  /** A registration request: a name and a password. */
  datatype Registration = Registration(name: string, password: string)

  /**
    The registry after a sequence of `createAlias` calls, in order; a call
    that fails with `DuplicateAlias` leaves the registry as it was.
   */
  function RegisterAll(reg: Registry, requests: seq<Registration>): Registry
    requires Valid(reg)
    decreases |requests|
  {
    if |requests| == 0 then reg
    else
      var next := match CreateAlias(reg, requests[0].name, requests[0].password)
        case Ok(r) => r
        case Err(_) => reg;
      RegisterAll(next, requests[1..])
  }

  /**
    Any sequence of registrations keeps at most one alias per name, never
    loses a row, and leaves every requested name registered.
   */
  lemma {:induction false} RegisterAllKeepsNamesUnique(reg: Registry, requests: seq<Registration>)
    requires Valid(reg) && UniqueNames(reg)
    ensures var after := RegisterAll(reg, requests);
            && Valid(after) && UniqueNames(after)
            && reg.rows.Keys <= after.rows.Keys
            && (forall id :: id in reg.rows ==> after.rows[id] == reg.rows[id])
            && (forall i :: 0 <= i < |requests| ==> ExistsByName(after, requests[i].name))
    decreases |requests|
  {
    if |requests| > 0 {
      var req := requests[0];
      var r := CreateAlias(reg, req.name, req.password);
      var next := if r.Ok? then r.value else reg;
      assert ExistsByName(next, req.name) by {
        if r.Ok? {
          var id :| id in IdsNamed(next, req.name);
        }
      }
      RegisterAllKeepsNamesUnique(next, requests[1..]);
      var after := RegisterAll(reg, requests);
      assert after == RegisterAll(next, requests[1..]);
      forall i | 0 <= i < |requests|
        ensures ExistsByName(after, requests[i].name)
      {
        if i == 0 {
          var id :| id in next.rows && next.rows[id].name == req.name;
          assert after.rows[id] == next.rows[id];
        } else {
          assert requests[i] == requests[1..][i - 1];
        }
      }
    }
  }
}
