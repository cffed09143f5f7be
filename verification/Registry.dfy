/**
 The mutable side of the registry: the tables as the repositories see them, the
 Keycloak realm and ICID behind their clients, and the id generator.
 */
module Registry {
  import opened Wrappers
  import opened Tables
  import opened RegistrySpec
  import opened RegistryInvariants

  class Store {
    var db: Tables
    var keycloak: map<string, Identity>
    var icid: set<IcidEntry>
    var nextId: Id
    ghost var issued: set<Id>
    ghost var stamped: set<Identity>

    /** The state the specification relations speak about. */
    ghost function Snapshot(): World
      reads this
    {
      World(db, keycloak, icid, issued, stamped)
    }

    /** The generator is ahead of every id it ever returned. */
    ghost predicate Counting()
      reads this
    {
      forall id | id in issued :: id < nextId
    }

    ghost predicate Valid()
      reads this
    {
      Counting() && Inv(Snapshot())
    }

    /** generateId: never the same id twice. */
    method GenerateId() returns (id: Id)
      requires Counting()
      modifies this`nextId, this`issued
      ensures Counting()
      ensures id !in old(issued) && issued == old(issued) + {id}
    {
      id := nextId;
      nextId := nextId + 1;
      issued := issued + {id};
    }

    /** find({ company_ifric_id })[0]. */
    method CompanyByIfric(ifricId: string) returns (k: Option<Id>)
      requires Valid()
      ensures k == FindCompany(db, ifricId)
    {
      if c :| c in db.companies && db.companies[c].ifricId == ifricId {
        k := Some(c);
      } else {
        k := None;
      }
    }

    /** find({ factory_id })[0]. */
    method FactoryById(factoryId: string) returns (k: Option<Id>)
      requires Valid()
      ensures k == FindFactory(db, factoryId)
    {
      if f :| f in db.factories && db.factories[f].factoryId == factoryId {
        k := Some(f);
      } else {
        k := None;
      }
    }

    /** find({ company_id, group_name })[0], in whatever order the rows come. */
    method GroupByName(companyId: Id, name: string) returns (g: Option<Id>)
      ensures PickedGroup(db, companyId, name, g)
    {
      if k :| k in db.groups && db.groups[k].companyId == companyId && db.groups[k].name == name {
        g := Some(k);
      } else {
        g := None;
      }
    }

    method AssetByUrn(urn: string) returns (a: Option<Id>)
      ensures PickedAsset(db, urn, a)
    {
      if k :| k in db.assets && db.assets[k].urn == urn {
        a := Some(k);
      } else {
        a := None;
      }
    }

    method CategoryByName(name: string) returns (c: Option<Id>)
      ensures PickedCategory(db, name, c)
    {
      if k :| k in db.categories && db.categories[k] == name {
        c := Some(k);
      } else {
        c := None;
      }
    }

    /** KeycloakService.createUser: refused for an address that has an account; it may also throw after creating one. */
    method CreateIdentity(email: string, identity: Identity, reply: IdentityReply) returns (ok: bool)
      modifies this`keycloak, this`stamped
      ensures ok <==> reply == Created && email !in old(keycloak)
      ensures if reply == Refused || email in old(keycloak) then keycloak == old(keycloak) && stamped == old(stamped)
              else keycloak == old(keycloak)[email := identity] && stamped == old(stamped) + {identity}
    {
      if reply == Refused || email in keycloak {
        return false;
      }
      keycloak := keycloak[email := identity];
      stamped := stamped + {identity};
      ok := reply == Created;
    }

    /** KeycloakService.deleteUser: an address without an account is not an error. */
    method DeleteIdentity(email: string, hasNoEffect: bool)
      modifies this`keycloak
      ensures keycloak == if hasNoEffect then old(keycloak) else old(keycloak) - {email}
    {
      if !hasNoEffect {
        keycloak := keycloak - {email};
      }
    }
  }
}
