/** The form's data store: the form-data map and the map of touched fields,
    both updated key by key by the input handlers. */
module FormDataStore {
  import opened FormValues

  /** The form data after `{ ...prev, [name]: value }`. */
  function Assign(formData: FormData, name: string, value: Value): (r: FormData)
    ensures r.Keys == formData.Keys + {name}
    ensures r[name] == value
    ensures forall k | k in formData && k != name :: r[k] == formData[k]
  {
    formData[name := value]
  }

  /** The touched map after `{ ...prev, [name]: true }`. */
  function Touch(touched: map<string, bool>, name: string): (r: map<string, bool>)
    ensures r.Keys == touched.Keys + {name}
    ensures r[name]
    ensures forall k | k in touched && k != name :: r[k] == touched[k]
  {
    touched[name := true]
  }

  /** Touching the same field twice is touching it once. */
  lemma TouchIdempotent(touched: map<string, bool>, name: string)
    ensures Touch(Touch(touched, name), name) == Touch(touched, name)
  {
  }

  /** Assigning a field leaves the emptiness of every other field as it
      was, so other fields' completion does not move. */
  lemma AssignKeepsOthers(formData: FormData, name: string, value: Value, other: string)
    requires other != name
    ensures Get(Assign(formData, name, value), other) == Get(formData, other)
    ensures Get(Assign(formData, name, value), name) == value
  {
  }

  /** `markAllTouched`'s loop: one `true` entry per key of the form data. */
  method AllTouched(keys: set<string>) returns (m: map<string, bool>)
    ensures m.Keys == keys
    ensures forall k | k in m :: m[k]
  {
    m := map[];
    var remaining := keys;
    while remaining != {}
      invariant remaining <= keys
      invariant m.Keys == keys - remaining
      invariant forall k | k in m :: m[k]
      decreases |remaining|
    {
      var field :| field in remaining;
      m := m[field := true];
      remaining := remaining - {field};
    }
  }

  class Store {
    var formData: FormData
    var touched: map<string, bool>

    /** `useFormData(initialData)` */
    constructor(initialData: FormData)
      ensures formData == initialData && touched == map[]
    {
      formData := initialData;
      touched := map[];
    }

    /** `handleChange(e)`: store the event's value under its name; the event
        type is read but plays no part. */
    method HandleChange(e: ChangeEvent)
      modifies this
      ensures formData == Assign(old(formData), e.name, e.value)
      ensures touched == old(touched)
    {
      formData := formData[e.name := e.value];
    }

    /** `handleBlur(fieldName)` */
    method HandleBlur(name: string)
      modifies this
      ensures touched == Touch(old(touched), name)
      ensures formData == old(formData)
    {
      touched := touched[name := true];
    }

    /** `setFieldValue(fieldName, value)`: the same update as a change event
        carrying that name and value. */
    method SetFieldValue(name: string, value: Value)
      modifies this
      ensures formData == Assign(old(formData), name, value)
      ensures touched == old(touched)
    {
      formData := formData[name := value];
    }

    /** `resetForm(newData)` */
    method ResetForm(newData: FormData)
      modifies this
      ensures formData == newData && touched == map[]
    {
      formData := newData;
      touched := map[];
    }

    /** `markAllTouched()`: every key of the form data is touched, and keys
        touched before but absent from the data are dropped. */
    method MarkAllTouched()
      modifies this
      ensures touched.Keys == formData.Keys
      ensures forall k | k in touched :: touched[k]
      ensures formData == old(formData)
    {
      touched := AllTouched(formData.Keys);
    }
  }
}
