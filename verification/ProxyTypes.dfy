/** Names and small wrappers shared by every part of the proxy model. */
module ProxyTypes {

  datatype Option<+T> = None | Some(value: T)

  /** The namespace and name of a Kubernetes object. */
  datatype NamespacedName = NamespacedName(namespace: string, name: string)

  /** One named port of one service; the key of both proxy indexes. */
  datatype ServicePortName = ServicePortName(owner: NamespacedName, port: string)

  datatype Protocol = TCP | UDP

  /** An address in its canonical text form. */
  type IP = string

  /** One backend of a virtual server. */
  datatype Destination = Destination(ip: IP, port: int)

  function Lookup<K, V>(m: map<K, V>, k: K): Option<V> {
    if k in m then Some(m[k]) else None
  }

  /** A map is determined by its lookups. */
  lemma SameLookups<K, V>(a: map<K, V>, b: map<K, V>)
    requires forall k :: Lookup(a, k) == Lookup(b, k)
    ensures a == b
  {
    forall k
      ensures k in a <==> k in b
      ensures k in a ==> a[k] == b[k]
    {
      assert Lookup(a, k) == Lookup(b, k);
    }
  }
}
