/** The values the address-book service exchanges: the phone key, the
    address record, and the conversion between the record and the flat
    field -> string hash that the store keeps under the phone key. */
module DataTypes {

  datatype Option<+T> = None | Some(value: T)

  /** A phone number already validated and normalised (for example
      "tel:+7-999-999-99-99"); the model treats it as an opaque key. */
  type Phone = string

  /** The six required string fields of a home address. */
  datatype HomeAddress = HomeAddress(
    street: string,
    apartmentNumber: string,
    city: string,
    stateProvince: string,
    postalCode: string,
    country: string)

  /** The field names under which an address is stored. */
  const Street := "street"
  const ApartmentNumber := "apartment_number"
  const City := "city"
  const StateProvince := "state_province"
  const PostalCode := "postal_code"
  const Country := "country"

  const FieldNames: set<string> :=
    {Street, ApartmentNumber, City, StateProvince, PostalCode, Country}

  /** Every entry of `small` is also an entry of `big`, with the same value. */
  ghost predicate SubMap(small: map<string, string>, big: map<string, string>) {
    forall f :: f in small ==> f in big && big[f] == small[f]
  }

  /** The field -> value mapping of an address, as written to the store. */
  function ModelDump(a: HomeAddress): (m: map<string, string>)
    ensures m.Keys == FieldNames
    ensures m[Street] == a.street && m[ApartmentNumber] == a.apartmentNumber
    ensures m[City] == a.city && m[StateProvince] == a.stateProvince
    ensures m[PostalCode] == a.postalCode && m[Country] == a.country
  {
    map[Street := a.street, ApartmentNumber := a.apartmentNumber, City := a.city,
        StateProvince := a.stateProvince, PostalCode := a.postalCode, Country := a.country]
  }

  /** Reads an address back from a stored hash, as the response model does:
      all six fields must be present, any other field is ignored. */
  function FromFields(m: map<string, string>): (r: Option<HomeAddress>)
    ensures r.Some? <==> FieldNames <= m.Keys
    ensures r.Some? ==> SubMap(ModelDump(r.value), m)
  {
    if Street in m && ApartmentNumber in m && City in m
       && StateProvince in m && PostalCode in m && Country in m
    then Some(HomeAddress(m[Street], m[ApartmentNumber], m[City],
                          m[StateProvince], m[PostalCode], m[Country]))
    else None
  }

  /** Reading back what was written gives the same address. */
  lemma DumpRoundTrip(a: HomeAddress)
    ensures FromFields(ModelDump(a)) == Some(a)
  {
  }

  /** Writing an address over any hash and reading it back gives exactly that
      address: none of the hash's former values shows through. */
  lemma OverlayRoundTrip(prior: map<string, string>, a: HomeAddress)
    ensures FromFields(prior + ModelDump(a)) == Some(a)
  {
  }

  /** An address is determined by its dump. */
  lemma ModelDumpInjective(a: HomeAddress, b: HomeAddress)
    ensures ModelDump(a) == ModelDump(b) <==> a == b
  {
  }
}
