/**
 * The patient-case record (`PatientCase` and `CaseStatus` in types.ts) and
 * access to its fields by name, as the components do with `c[key]`.
 */
module Cases {
  import opened Options

  /** The two values of `CaseStatus`; the `status` field itself is any string. */
  const ACTIVO: string := "ACTIVO"
  const BAJA: string := "BAJA"

  /** One patient's treatment episode. Only `fechaBaja` may be absent. */
  datatype PatientCase = PatientCase(
    id: string,
    pjs: string,
    ciudad: string,
    fechaIngreso: string,
    fechaBaja: Option<string>,
    medico: string,
    aseguradora: string,
    sector: string,
    institucion: string,
    dispensacion: string,
    distribuidor: string,
    indicacion: string,
    dosis: string,
    status: string)

  /** The keys of `PatientCase`. */
  datatype Field =
    | Id | Pjs | Ciudad | FechaIngreso | FechaBaja | Medico | Aseguradora | Sector
    | Institucion | Dispensacion | Distribuidor | Indicacion | Dosis | Status

  /** Every key, in declaration order (the order of `Object.keys` on a form record). */
  const AllFields: seq<Field> := [
    Id, Pjs, Ciudad, FechaIngreso, FechaBaja, Medico, Aseguradora, Sector,
    Institucion, Dispensacion, Distribuidor, Indicacion, Dosis, Status]

  lemma AllFieldsListsEveryField(f: Field)
    ensures f in AllFields
  {
  }

  /** The position of a key in `AllFields`. */
  function FieldIndex(f: Field): (i: nat)
    ensures i < |AllFields| && AllFields[i] == f
  {
    match f
    case Id => 0
    case Pjs => 1
    case Ciudad => 2
    case FechaIngreso => 3
    case FechaBaja => 4
    case Medico => 5
    case Aseguradora => 6
    case Sector => 7
    case Institucion => 8
    case Dispensacion => 9
    case Distribuidor => 10
    case Indicacion => 11
    case Dosis => 12
    case Status => 13
  }

  /** Each key occurs once in `AllFields`. */
  lemma FieldIndexOfAllFields(i: nat)
    requires i < |AllFields|
    ensures FieldIndex(AllFields[i]) == i
  {
  }

  /** `c[key]`; `None` is `undefined`. */
  function FieldOf(c: PatientCase, f: Field): Option<string> {
    match f
    case Id => Some(c.id)
    case Pjs => Some(c.pjs)
    case Ciudad => Some(c.ciudad)
    case FechaIngreso => Some(c.fechaIngreso)
    case FechaBaja => c.fechaBaja
    case Medico => Some(c.medico)
    case Aseguradora => Some(c.aseguradora)
    case Sector => Some(c.sector)
    case Institucion => Some(c.institucion)
    case Dispensacion => Some(c.dispensacion)
    case Distribuidor => Some(c.distribuidor)
    case Indicacion => Some(c.indicacion)
    case Dosis => Some(c.dosis)
    case Status => Some(c.status)
  }

  /** The property name of a field. */
  function FieldName(f: Field): string {
    match f
    case Id => "id"
    case Pjs => "pjs"
    case Ciudad => "ciudad"
    case FechaIngreso => "fechaIngreso"
    case FechaBaja => "fechaBaja"
    case Medico => "medico"
    case Aseguradora => "aseguradora"
    case Sector => "sector"
    case Institucion => "institucion"
    case Dispensacion => "dispensacion"
    case Distribuidor => "distribuidor"
    case Indicacion => "indicacion"
    case Dosis => "dosis"
    case Status => "status"
  }

  /** The field a property name denotes, if any; any other name reads as `undefined`. */
  function FieldNamed(key: string): (r: Option<Field>)
    ensures r.Some? ==> FieldName(r.value) == key
  {
    if key == "id" then Some(Id)
    else if key == "pjs" then Some(Pjs)
    else if key == "ciudad" then Some(Ciudad)
    else if key == "fechaIngreso" then Some(FechaIngreso)
    else if key == "fechaBaja" then Some(FechaBaja)
    else if key == "medico" then Some(Medico)
    else if key == "aseguradora" then Some(Aseguradora)
    else if key == "sector" then Some(Sector)
    else if key == "institucion" then Some(Institucion)
    else if key == "dispensacion" then Some(Dispensacion)
    else if key == "distribuidor" then Some(Distribuidor)
    else if key == "indicacion" then Some(Indicacion)
    else if key == "dosis" then Some(Dosis)
    else if key == "status" then Some(Status)
    else None
  }

  /** Looking a field up by its own name finds it. */
  lemma FieldNamedOfName(f: Field)
    ensures FieldNamed(FieldName(f)) == Some(f)
  {
  }

  /** `{ ...c, [f]: v }`. */
  function WithField(c: PatientCase, f: Field, v: string): (r: PatientCase)
    ensures forall g :: FieldOf(r, g) == if g == f then Some(v) else FieldOf(c, g)
  {
    match f
    case Id => c.(id := v)
    case Pjs => c.(pjs := v)
    case Ciudad => c.(ciudad := v)
    case FechaIngreso => c.(fechaIngreso := v)
    case FechaBaja => c.(fechaBaja := Some(v))
    case Medico => c.(medico := v)
    case Aseguradora => c.(aseguradora := v)
    case Sector => c.(sector := v)
    case Institucion => c.(institucion := v)
    case Dispensacion => c.(dispensacion := v)
    case Distribuidor => c.(distribuidor := v)
    case Indicacion => c.(indicacion := v)
    case Dosis => c.(dosis := v)
    case Status => c.(status := v)
  }

  /** Two cases with the same value in every field are the same case. */
  lemma SameFieldsSameCase(a: PatientCase, b: PatientCase)
    requires forall f :: FieldOf(a, f) == FieldOf(b, f)
    ensures a == b
  {
    assert FieldOf(a, Id) == FieldOf(b, Id);
    assert FieldOf(a, Pjs) == FieldOf(b, Pjs);
    assert FieldOf(a, Ciudad) == FieldOf(b, Ciudad);
    assert FieldOf(a, FechaIngreso) == FieldOf(b, FechaIngreso);
    assert FieldOf(a, FechaBaja) == FieldOf(b, FechaBaja);
    assert FieldOf(a, Medico) == FieldOf(b, Medico);
    assert FieldOf(a, Aseguradora) == FieldOf(b, Aseguradora);
    assert FieldOf(a, Sector) == FieldOf(b, Sector);
    assert FieldOf(a, Institucion) == FieldOf(b, Institucion);
    assert FieldOf(a, Dispensacion) == FieldOf(b, Dispensacion);
    assert FieldOf(a, Distribuidor) == FieldOf(b, Distribuidor);
    assert FieldOf(a, Indicacion) == FieldOf(b, Indicacion);
    assert FieldOf(a, Dosis) == FieldOf(b, Dosis);
    assert FieldOf(a, Status) == FieldOf(b, Status);
  }
}
