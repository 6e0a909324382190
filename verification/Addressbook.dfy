/** Where the mail for an address goes. */
module Addressbook {
  import opened Bytes

  /** An address as it was written, with its normalised parts. */
  datatype Address = Address(raw: Text, user: Text, domain: Text)

  const STAR: Text := [42]

  datatype Entry = Local(mailbox: int) | Forward(address: Address) | Remote(address: Address)

  datatype Book = Book(domains: set<Text>, entries: map<Text, map<Text, Entry>>) {

    function Lookup(addr: Address): Option<Entry> {
      if addr.domain !in domains then Some(Remote(addr))
      else
        match LookupInDomain(addr.domain, addr)
        case Some(entry) => Some(entry)
        case None => LookupInDomain(STAR, addr)
    }

    function LookupInDomain(domain: Text, addr: Address): Option<Entry> {
      if domain !in entries then None
      else if addr.user in entries[domain] then Some(entries[domain][addr.user])
      else if STAR in entries[domain] then Some(entries[domain][STAR])
      else None
    }

    predicate Knows(domain: Text, user: Text) {
      domain in entries && user in entries[domain]
    }

    /** An address is unknown exactly if its domain is ours and neither it nor a wildcard for it is listed. */
    lemma Unknown(addr: Address)
      ensures Lookup(addr).None? <==>
              && addr.domain in domains
              && forall d, u :: d in {addr.domain, STAR} && u in {addr.user, STAR} ==> !Knows(d, u)
    {
      assert Knows(addr.domain, addr.user) || Knows(addr.domain, STAR) || Knows(STAR, addr.user) || Knows(STAR, STAR)
        <==> exists d, u :: d in {addr.domain, STAR} && u in {addr.user, STAR} && Knows(d, u);
    }

    /**
     * Which entry is found, in order: for a foreign domain the address itself; else that of the user in the domain,
     * of `*` (42) in the domain, of the user in the domain `*`, or of `*` in the domain `*`.
     */
    lemma FirstKnown(addr: Address)
      ensures var Address(_, user, domain) := addr;
              Lookup(addr) ==
                if domain !in domains then Some(Remote(addr))
                else if Knows(domain, user) then Some(entries[domain][user])
                else if Knows(domain, [42]) then Some(entries[domain][[42]])
                else if Knows([42], user) then Some(entries[[42]][user])
                else if Knows([42], [42]) then Some(entries[[42]][[42]])
                else None
    {
      assert STAR == [42];
    }
  }
}
